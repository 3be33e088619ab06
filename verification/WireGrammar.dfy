/** What the protobuf walk accepts and what it returns, said without its loop: a grammar of tokens
    and a grouping of their values. */
module WireGrammar {
  import opened Common
  import opened Varint
  import opened Wire

  // ---- The grammar ----

  /** A payload of `size` bytes where `want` were announced: only the last field may be cut. */
  predicate Fits(size: nat, want: nat, last: bool) {
    size == want || (last && size < want)
  }

  predicate IsToken(t: Token, last: bool) {
    && IsVarint(t.tag)
    && match t.WireType()
       case 0 => t.len == [] && IsVarint(t.payload)
       case 1 => t.len == [] && Fits(|t.payload|, 8, last)
       case 2 => IsVarint(t.len) && Fits(|t.payload|, VarintValue(t.len), last)
       case 5 => t.len == [] && Fits(|t.payload|, 4, last)
       case _ => false
  }

  /** The tokens, laid end to end, are the whole input. */
  predicate IsTokenization(bs: seq<byte>, ts: seq<Token>) {
    && AllBytes(ts) == bs
    && forall i :: 0 <= i < |ts| ==> IsToken(ts[i], i == |ts| - 1)
  }

  lemma TokenSound(bs: seq<byte>)
    requires ReadToken(bs).Ok?
    ensures var t := ReadToken(bs).value; IsToken(t, |t.Bytes()| == |bs|)
  {
    var head := ReadVarint(bs).value;
    ReadVarintIff(bs, head.value, head.size);
    var wire, rest := head.value % 8, bs[head.size..];
    if wire == 0 || wire == 2 {
      var v := ReadVarint(rest).value;
      ReadVarintIff(rest, v.value, v.size);
    }
  }

  lemma VarintPrefix(v: seq<byte>, rest: seq<byte>)
    requires IsVarint(v)
    ensures ReadVarint(v + rest) == Ok(Read(VarintValue(v), |v|))
    ensures (v + rest)[..|v|] == v && (v + rest)[|v|..] == rest
  {
    assert (v + rest)[..|v|] == v;
    ReadVarintIff(v + rest, VarintValue(v), |v|);
  }

  lemma TakeFits(payload: seq<byte>, rest: seq<byte>, want: nat)
    requires Fits(|payload|, want, rest == [])
    ensures Take(payload + rest, want) == payload
  {
  }

  lemma BodyComplete(t: Token, rest: seq<byte>)
    requires IsToken(t, rest == [])
    ensures ReadBody(t.WireType(), t.len + t.payload + rest) == Ok(Body(t.len, t.payload))
  {
    var bs := t.payload + rest;
    assert t.len + t.payload + rest == t.len + bs;
    assert [] + bs == bs;
    match t.WireType()
    case 0 => VarintPrefix(t.payload, rest);
    case 1 => TakeFits(t.payload, rest, 8);
    case 2 =>
      VarintPrefix(t.len, bs);
      TakeFits(t.payload, rest, VarintValue(t.len));
    case 5 => TakeFits(t.payload, rest, 4);
  }

  lemma TokenComplete(t: Token, rest: seq<byte>)
    requires IsToken(t, rest == [])
    ensures ReadToken(t.Bytes() + rest) == Ok(t)
  {
    assert t.Bytes() + rest == t.tag + (t.len + t.payload + rest);
    VarintPrefix(t.tag, t.len + t.payload + rest);
    BodyComplete(t, rest);
  }

  lemma {:induction false} TokensSound(bs: seq<byte>)
    requires ReadTokens(bs).Ok?
    ensures IsTokenization(bs, ReadTokens(bs).value)
    decreases |bs|
  {
    if bs != [] {
      TokenSound(bs);
      var t := ReadToken(bs).value;
      var tail := bs[|t.Bytes()|..];
      TokensSound(tail);
      var rest := ReadTokens(tail).value;
      assert rest == [] <==> tail == [];
      var ts := [t] + rest;
      forall i | 0 <= i < |ts| ensures IsToken(ts[i], i == |ts| - 1) {
        assert i == 0 || ts[i] == rest[i - 1];
      }
    }
  }

  lemma {:induction false} TokensComplete(ts: seq<Token>)
    requires forall i :: 0 <= i < |ts| ==> IsToken(ts[i], i == |ts| - 1)
    ensures ReadTokens(AllBytes(ts)) == Ok(ts)
  {
    if ts != [] {
      var t, tail := ts[0], AllBytes(ts[1..]);
      assert tail == [] <==> |ts| == 1;
      TokenComplete(t, tail);
      TokensComplete(ts[1..]);
      assert (t.Bytes() + tail)[|t.Bytes()|..] == tail;
      assert [t] + ts[1..] == ts;
    }
  }

  /** The walk cuts its input exactly as the grammar does, and the grammar is unambiguous. */
  lemma ReadTokensIff(bs: seq<byte>, ts: seq<Token>)
    ensures ReadTokens(bs) == Ok(ts) <==> IsTokenization(bs, ts)
  {
    if ReadTokens(bs) == Ok(ts) {
      TokensSound(bs);
    }
    if IsTokenization(bs, ts) {
      TokensComplete(ts);
    }
  }

  // ---- The grouping ----

  /** All the values under a key, in wire order. */
  function ValuesOf(es: seq<Entry>, key: string): seq<PyVal> {
    if es == [] then []
    else
      var last := es[|es| - 1];
      if last.key == key then ValuesOf(es[..|es| - 1], key) + [last.val] else ValuesOf(es[..|es| - 1], key)
  }

  /** The keys, in order of first occurrence. */
  function FirstKeys(es: seq<Entry>): seq<string> {
    if es == [] then []
    else
      var keys, last := FirstKeys(es[..|es| - 1]), es[|es| - 1].key;
      if last in keys then keys else keys + [last]
  }

  /** A key holds its sole value, or the list of all its values. */
  function Slot(vals: seq<PyVal>): PyVal {
    if |vals| == 1 then vals[0] else PList(vals)
  }

  function Keys(d: Dict): (keys: seq<string>)
    ensures |keys| == |d|
    ensures forall i :: 0 <= i < |d| ==> keys[i] == d[i].key
  {
    seq(|d|, i requires 0 <= i < |d| => d[i].key)
  }

  ghost predicate IsGrouping(es: seq<Entry>, d: Dict) {
    && Keys(d) == FirstKeys(es)
    && (forall i, j :: 0 <= i < j < |d| ==> d[i].key != d[j].key)
    && forall i :: 0 <= i < |d| ==> d[i].val == Slot(ValuesOf(es, d[i].key))
  }

  predicate NoLists(es: seq<Entry>) {
    forall i :: 0 <= i < |es| ==> !es[i].val.PList?
  }

  lemma {:induction false} ValuesAreNoLists(es: seq<Entry>, key: string)
    requires NoLists(es)
    ensures forall i :: 0 <= i < |ValuesOf(es, key)| ==> !ValuesOf(es, key)[i].PList?
    ensures key in FirstKeys(es) <==> ValuesOf(es, key) != []
  {
    if es != [] {
      ValuesAreNoLists(es[..|es| - 1], key);
    }
  }

  /** The dict the loop builds is the grouping: `isinstance(..., list)` never mistakes a value for a
      list it made itself, because no value of a field is one. */
  lemma {:induction false} GroupIsGrouping(es: seq<Entry>)
    requires NoLists(es)
    ensures IsGrouping(es, Group(es))
  {
    if es != [] {
      var init, e := es[..|es| - 1], es[|es| - 1];
      GroupIsGrouping(init);
      AddFieldGroups(init, e);
      assert init + [e] == es;
    }
  }

  lemma AddFieldGroups(es: seq<Entry>, e: Entry)
    requires NoLists(es) && IsGrouping(es, Group(es))
    ensures IsGrouping(es + [e], AddField(Group(es), e))
  {
    if IndexOf(Group(es), e.key) < |Group(es)| {
      AddKnownKey(es, Group(es), e);
    } else {
      AddNewKey(es, Group(es), e);
    }
  }

  lemma ValuesSnoc(es: seq<Entry>, e: Entry, key: string)
    ensures ValuesOf(es + [e], key) == if e.key == key then ValuesOf(es, key) + [e.val] else ValuesOf(es, key)
    ensures FirstKeys(es + [e]) == if e.key in FirstKeys(es) then FirstKeys(es) else FirstKeys(es) + [e.key]
  {
    assert (es + [e])[..|es|] == es;
  }

  lemma AddKnownKey(es: seq<Entry>, d: Dict, e: Entry)
    requires NoLists(es) && IsGrouping(es, d) && IndexOf(d, e.key) < |d|
    ensures IsGrouping(es + [e], AddField(d, e))
  {
    var d' := AddField(d, e);
    KeyPresence(es, d, e.key);
    ValuesAreNoLists(es, e.key);
    ValuesSnoc(es, e, e.key);
    assert Keys(d') == Keys(d);
    SlotGrows(ValuesOf(es, e.key), e.val);
    forall i | 0 <= i < |d'| ensures d'[i].val == Slot(ValuesOf(es + [e], d'[i].key)) {
      ValuesSnoc(es, e, d'[i].key);
    }
  }

  lemma AddNewKey(es: seq<Entry>, d: Dict, e: Entry)
    requires NoLists(es) && IsGrouping(es, d) && IndexOf(d, e.key) == |d|
    ensures IsGrouping(es + [e], AddField(d, e))
  {
    KeyPresence(es, d, e.key);
    ValuesSnoc(es, e, e.key);
    assert Keys(d + [e]) == Keys(d) + [e.key];
    NewKeySlots(es, d, e);
  }

  lemma NewKeySlots(es: seq<Entry>, d: Dict, e: Entry)
    requires NoLists(es) && IsGrouping(es, d) && e.key !in FirstKeys(es)
    requires forall j :: 0 <= j < |d| ==> d[j].key != e.key
    ensures forall i :: 0 <= i < |d + [e]| ==> (d + [e])[i].val == Slot(ValuesOf(es + [e], (d + [e])[i].key))
  {
    forall i | 0 <= i < |d + [e]| ensures (d + [e])[i].val == Slot(ValuesOf(es + [e], (d + [e])[i].key)) {
      if i < |d| {
        ValuesSnoc(es, e, d[i].key);
      } else {
        NewSlot(es, e);
      }
    }
  }

  lemma NewSlot(es: seq<Entry>, e: Entry)
    requires NoLists(es) && e.key !in FirstKeys(es)
    ensures Slot(ValuesOf(es + [e], e.key)) == e.val
  {
    ValuesAreNoLists(es, e.key);
    ValuesSnoc(es, e, e.key);
    assert [] + [e.val] == [e.val];
  }

  lemma SlotGrows(vals: seq<PyVal>, val: PyVal)
    requires vals != [] && forall i :: 0 <= i < |vals| ==> !vals[i].PList?
    ensures Collect(Slot(vals), val) == Slot(vals + [val])
  {
    if |vals| == 1 {
      assert vals + [val] == [vals[0], val];
    }
  }

  lemma KeyPresence(es: seq<Entry>, d: Dict, key: string)
    requires IsGrouping(es, d)
    ensures IndexOf(d, key) < |d| <==> key in FirstKeys(es)
  {
    var i := IndexOf(d, key);
    if i < |d| {
      assert Keys(d)[i] == key;
    }
  }

  lemma GroupingUnique(es: seq<Entry>, d: Dict, d': Dict)
    requires IsGrouping(es, d) && IsGrouping(es, d')
    ensures d == d'
  {
    forall i | 0 <= i < |d| ensures d[i] == d'[i] {
      assert Keys(d)[i] == Keys(d')[i];
    }
    assert |Keys(d)| == |Keys(d')|;
  }

  lemma ValueIsNoList(p: Payload, printable: string -> bool)
    ensures !PayloadValue(p, printable).PList?
  {
    if p.Chunk? {
      assert !Classify(p.bs, printable).PList?;
    }
  }

  lemma EntriesHaveNoLists(ts: seq<Token>, printable: string -> bool)
    ensures NoLists(Entries(ts, printable))
  {
    forall i | 0 <= i < |ts| ensures !Entries(ts, printable)[i].val.PList? {
      EntriesAt(ts, printable, i);
      ValueIsNoList(ts[i].Content(), printable);
    }
  }

  /** On every input: the walk succeeds with `d` exactly when the input is a sequence of tokens laid
      end to end (only the last of them cut short) and `d` groups their values. */
  lemma DecodeIff(bs: seq<byte>, d: Dict, printable: string -> bool)
    ensures DecodeProtobuf(bs, printable) == Ok(d)
       <==> exists ts :: IsTokenization(bs, ts) && IsGrouping(Entries(ts, printable), d)
  {
    if DecodeProtobuf(bs, printable) == Ok(d) {
      var ts := ReadTokens(bs).value;
      ReadTokensIff(bs, ts);
      EntriesHaveNoLists(ts, printable);
      GroupIsGrouping(Entries(ts, printable));
      assert IsTokenization(bs, ts) && IsGrouping(Entries(ts, printable), d);
    }
    if exists ts :: IsTokenization(bs, ts) && IsGrouping(Entries(ts, printable), d) {
      var ts :| IsTokenization(bs, ts) && IsGrouping(Entries(ts, printable), d);
      ReadTokensIff(bs, ts);
      EntriesHaveNoLists(ts, printable);
      GroupIsGrouping(Entries(ts, printable));
      GroupingUnique(Entries(ts, printable), d, Group(Entries(ts, printable)));
    }
  }
}
