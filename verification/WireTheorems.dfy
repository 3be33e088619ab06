/** Consequences for every input: keys tell field numbers apart, a shown chunk tells its bytes, and
    nesting is bounded by the input's length. */
module WireTheorems {
  import opened Common
  import opened Wire
  import opened WireGrammar
  import Utf8
  import Base64

  // ---- Keys and field numbers ----

  /** The decimal numeral of `n`, without leading zeros. */
  predicate IsNumeral(s: string, n: nat) {
    s != "" && (forall i :: 0 <= i < |s| ==> IsDigit(s[i])) && ToInt(s) == n && (s[0] == '0' ==> |s| == 1)
  }

  /** Keys are `field_` and the field number in decimal; they tell field numbers apart, and never
      collide with the key of a base64 fallback. */
  lemma FieldKeyInjective(m: nat, n: nat)
    ensures FieldKey(m) == FieldKey(n) <==> m == n
    ensures FieldKey(m) != BYTES_KEY == "__bytes_b64__"
    ensures "field_" <= FieldKey(m) && IsNumeral(FieldKey(m)[6..], m)
  {
    assert FieldKey(m)[6..] == Decimal(m) && FieldKey(n)[6..] == Decimal(n);
    assert FieldKey(m)[0] == 'f' && BYTES_KEY[0] == '_';
    DecimalRoundTrip(m);
    DecimalRoundTrip(n);
    DecimalLeads(m);
  }

  /** The values of all the tokens that carry a field number, in wire order. */
  function ValuesOfNumber(ts: seq<Token>, number: nat, printable: string -> bool): seq<PyVal> {
    if ts == [] then []
    else
      var last := ts[|ts| - 1];
      var init := ValuesOfNumber(ts[..|ts| - 1], number, printable);
      if last.Number() == number then init + [PayloadValue(last.Content(), printable)] else init
  }

  lemma {:induction false} EntriesSnoc(ts: seq<Token>, t: Token, printable: string -> bool)
    ensures Entries(ts + [t], printable) == Entries(ts, printable) + [TokenEntry(t, printable)]
  {
    if ts == [] {
      EntriesCons([], t, [], printable);
      assert [] + [t] == [t] + [];
    } else {
      EntriesSnoc(ts[1..], t, printable);
      assert (ts + [t])[1..] == ts[1..] + [t];
    }
  }

  lemma {:induction false} ValuesByNumber(ts: seq<Token>, number: nat, printable: string -> bool)
    ensures ValuesOf(Entries(ts, printable), FieldKey(number)) == ValuesOfNumber(ts, number, printable)
  {
    if ts != [] {
      var init, last := ts[..|ts| - 1], ts[|ts| - 1];
      ValuesByNumber(init, number, printable);
      assert ts == init + [last];
      EntriesSnoc(init, last, printable);
      FieldKeyInjective(last.Number(), number);
      var es := Entries(ts, printable);
      assert es[..|es| - 1] == Entries(init, printable);
    }
  }

  lemma FieldByNumber(ts: seq<Token>, number: nat, printable: string -> bool)
    ensures var d := Group(Entries(ts, printable));
            var vals := ValuesOfNumber(ts, number, printable);
            var i := IndexOf(d, FieldKey(number));
            if vals == [] then i == |d| else i < |d| && d[i].val == Slot(vals)
  {
    var es := Entries(ts, printable);
    EntriesHaveNoLists(ts, printable);
    GroupIsGrouping(es);
    ValuesByNumber(ts, number, printable);
    ValuesAreNoLists(es, FieldKey(number));
    KeyPresence(es, Group(es), FieldKey(number));
  }

  lemma MessageNonEmpty(bs: seq<byte>, d: Dict, printable: string -> bool)
    requires DecodeProtobuf(bs, printable) == Ok(d) && bs != []
    ensures d != []
  {
    var ts := ReadTokens(bs).value;
    var es := Entries(ts, printable);
    EntriesHaveNoLists(ts, printable);
    GroupIsGrouping(es);
    FirstKeysNonEmpty(es);
    assert |Keys(d)| > 0;
  }

  /** In a decoded message every field number on the wire holds its sole value, or the list of all
      its values in wire order; a number that is not on the wire has no key. */
  lemma FieldsByNumber(bs: seq<byte>, d: Dict, printable: string -> bool)
    requires DecodeProtobuf(bs, printable) == Ok(d)
    ensures ReadTokens(bs).Ok?
    ensures forall number: nat ::
              var vals := ValuesOfNumber(ReadTokens(bs).value, number, printable);
              var i := IndexOf(d, FieldKey(number));
              if vals == [] then i == |d| else i < |d| && d[i].val == Slot(vals)
  {
    forall number: nat {
      FieldByNumber(ReadTokens(bs).value, number, printable);
    }
  }

  lemma FirstKeysNonEmpty(es: seq<Entry>)
    requires es != []
    ensures FirstKeys(es) != []
  {
  }

  // ---- Chunks ----

  predicate IsBytesDict(v: PyVal) {
    v.PDict? && |v.entries| == 1 && v.entries[0].key == BYTES_KEY && v.entries[0].val.PStr?
  }

  /** A nested message that parsed is never empty, so the walk's test for emptiness never sends a
      parsed chunk to base64. */
  lemma ParsedChunkIsNested(chunk: seq<byte>, printable: string -> bool)
    requires chunk != [] && TextOf(chunk, printable).None?
    ensures match DecodeProtobuf(chunk, printable)
            case Ok(d) => d != [] && Classify(chunk, printable) == PDict(d)
            case Err(_) => Classify(chunk, printable) == PDict(BytesDict(chunk))
  {
    if DecodeProtobuf(chunk, printable).Ok? {
      MessageNonEmpty(chunk, DecodeProtobuf(chunk, printable).value, printable);
    }
  }

  lemma MessageIsNoBytesDict(bs: seq<byte>, d: Dict, printable: string -> bool)
    requires DecodeProtobuf(bs, printable) == Ok(d)
    ensures !IsBytesDict(PDict(d))
  {
    if IsBytesDict(PDict(d)) {
      var ts := ReadTokens(bs).value;
      var es := Entries(ts, printable);
      EntriesHaveNoLists(ts, printable);
      GroupIsGrouping(es);
      assert Keys(d)[0] == BYTES_KEY;
      KeyFromEntry(es, BYTES_KEY);
      var i :| 0 <= i < |es| && es[i].key == BYTES_KEY;
      EntriesAt(ts, printable, i);
      FieldKeyInjective(ts[i].Number(), 0);
      assert false;
    }
  }

  lemma {:induction false} KeyFromEntry(es: seq<Entry>, key: string)
    requires key in FirstKeys(es)
    ensures exists i :: 0 <= i < |es| && es[i].key == key
  {
    var init := es[..|es| - 1];
    if es[|es| - 1].key != key {
      KeyFromEntry(init, key);
      var i :| 0 <= i < |init| && init[i].key == key;
      assert es[i].key == key;
    }
  }

  /** A text with a line feed, a tab or a space in it, or one that is printable. */
  predicate ReadsAsText(s: string, printable: string -> bool) {
    '\n' in s || '\t' in s || ' ' in s || printable(s)
  }

  /** The bytes of a text are shown as that text when it has a line feed, a tab or a space in it,
      whatever counts as printable; a text with none of them is shown exactly when it is printable. */
  lemma TextShownIff(s: string, printable: string -> bool)
    requires s != ""
    ensures '\n' in s || '\t' in s || ' ' in s ==> Classify(Utf8.Encode(s), printable) == PStr(s)
    ensures !('\n' in s || '\t' in s || ' ' in s) ==>
              (Classify(Utf8.Encode(s), printable) == PStr(s) <==> printable(s))
  {
    Utf8.DecodeIff(Utf8.Encode(s), s);
    assert Utf8.Encode(s) != [] by {
      assert |Utf8.EncodeChar(s[0])| >= 1;
    }
  }

  lemma TextOfIff(chunk: seq<byte>, printable: string -> bool)
    ensures TextOf(chunk, printable).Some? <==> exists s :: Utf8.Encode(s) == chunk && ReadsAsText(s, printable)
  {
    match Utf8.Decode(chunk)
    case Some(text) =>
      Utf8.DecodeIff(chunk, text);
      forall s | Utf8.Encode(s) == chunk ensures s == text {
        Utf8.DecodeIff(chunk, s);
      }
    case None =>
      forall s | Utf8.Encode(s) == chunk ensures false {
        Utf8.DecodeIff(chunk, s);
      }
  }

  /** The three readings of a chunk cannot be confused, and the text and base64 readings give its
      bytes back. A chunk is read as text when it is empty or encodes a text that reads as one. */
  lemma ClassifyTells(chunk: seq<byte>, printable: string -> bool)
    ensures var v := Classify(chunk, printable);
            && (v.PStr? <==> chunk == [] || exists s :: Utf8.Encode(s) == chunk && ReadsAsText(s, printable))
            && (v.PStr? ==> Utf8.Encode(v.s) == chunk)
            && (IsBytesDict(v) <==> !v.PStr? && ReadTokens(chunk).Err?)
            && (IsBytesDict(v) ==> Base64.Decode(v.entries[0].val.s) == Some(chunk))
            && (!v.PStr? && !IsBytesDict(v) ==> v.PDict? && DecodeProtobuf(chunk, printable) == Ok(v.entries))
  {
    var v := Classify(chunk, printable);
    TextOfIff(chunk, printable);
    if chunk == [] {
    } else if TextOf(chunk, printable).Some? {
      Utf8.DecodeIff(chunk, v.s);
    } else {
      ParsedChunkIsNested(chunk, printable);
      Base64.RoundTrip(chunk);
      if DecodeProtobuf(chunk, printable).Ok? {
        MessageIsNoBytesDict(chunk, v.entries, printable);
      }
    }
  }

  // ---- Depth ----

  /** How many dicts deep a value goes. */
  function Depth(v: PyVal): nat {
    match v
    case PInt(_) => 0
    case PStr(_) => 0
    case PList(items) => MaxDepth(items)
    case PDict(entries) => 1 + DictDepth(entries)
  }

  function MaxDepth(vs: seq<PyVal>): nat {
    if vs == [] then 0 else Max(Depth(vs[0]), MaxDepth(vs[1..]))
  }

  function DictDepth(d: Dict): nat {
    if d == [] then 0 else Max(Depth(d[0].val), DictDepth(d[1..]))
  }

  lemma {:induction false} MaxDepthSnoc(vs: seq<PyVal>, v: PyVal)
    ensures MaxDepth(vs + [v]) == Max(MaxDepth(vs), Depth(v))
  {
    if vs == [] {
      assert vs + [v] == [v] && [v][1..] == [];
    } else {
      MaxDepthSnoc(vs[1..], v);
      assert (vs + [v])[1..] == vs[1..] + [v];
    }
  }

  lemma CollectDepth(prior: PyVal, val: PyVal)
    ensures Depth(Collect(prior, val)) == Max(Depth(prior), Depth(val))
  {
    match prior
    case PList(items) => MaxDepthSnoc(items, val);
    case _ =>
      assert [prior, val][1..] == [val] && [val][1..] == [];
      assert MaxDepth([val]) == Depth(val);
  }

  ghost predicate Within(d: Dict, k: nat) {
    forall i :: 0 <= i < |d| ==> Depth(d[i].val) <= k
  }

  lemma {:induction false} GroupWithin(es: seq<Entry>, k: nat)
    requires Within(es, k)
    ensures Within(Group(es), k)
  {
    if es != [] {
      var init, e := es[..|es| - 1], es[|es| - 1];
      GroupWithin(init, k);
      var i := IndexOf(Group(init), e.key);
      if i < |Group(init)| {
        CollectDepth(Group(init)[i].val, e.val);
      }
    }
  }

  lemma {:induction false} WithinDepth(d: Dict, k: nat)
    requires Within(d, k)
    ensures DictDepth(d) <= k
  {
    if d != [] {
      WithinDepth(d[1..], k);
    }
  }

  lemma {:induction false} TokenInside(ts: seq<Token>, i: nat)
    requires i < |ts|
    ensures |ts[i].Bytes()| <= |AllBytes(ts)|
  {
    if i > 0 {
      TokenInside(ts[1..], i - 1);
    }
  }

  lemma {:induction false} ClassifyDepth(chunk: seq<byte>, printable: string -> bool)
    ensures 2 * Depth(Classify(chunk, printable)) <= |chunk| + (if chunk == [] then 0 else 1)
    decreases |chunk|, 2
  {
    if chunk != [] {
      assert BytesDict(chunk)[1..] == [];
      assert DictDepth(BytesDict(chunk)) == Max(Depth(BytesDict(chunk)[0].val), DictDepth([]));
      DepthBound(chunk, printable);
    }
  }

  /** Nesting: a message of n bytes decodes to at most (n + 1) / 2 dicts inside one another,
      because every nested chunk is at least two bytes shorter than the message around it. */
  lemma {:induction false} DepthBound(bs: seq<byte>, printable: string -> bool)
    requires bs != []
    ensures DecodeProtobuf(bs, printable).Ok? ==>
              2 * Depth(PDict(DecodeProtobuf(bs, printable).value)) <= |bs| + 1
    decreases |bs|, 1
  {
    if DecodeProtobuf(bs, printable).Ok? {
      var ts := ReadTokens(bs).value;
      var es, k: nat := Entries(ts, printable), (|bs| - 1) / 2;
      ReadTokensIff(bs, ts);
      forall i | 0 <= i < |es| ensures Depth(es[i].val) <= k {
        EntriesAt(ts, printable, i);
        TokenInside(ts, i);
        var content := ts[i].Content();
        assert IsToken(ts[i], i == |ts| - 1);
        if content.Chunk? {
          assert |content.bs| <= |bs| - 2;
          ClassifyDepth(content.bs, printable);
        }
      }
      GroupWithin(es, k);
      WithinDepth(Group(es), k);
    }
  }
}
