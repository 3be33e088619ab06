/** The walk against a reference encoder (Protocol Buffers Encoding guide, "Message Structure"). */
module WireRoundTrip {
  import opened Common
  import opened Bits
  import opened Varint
  import opened Wire
  import opened WireGrammar
  import opened WireTheorems
  import Utf8

  /** A field of a message, with what its sender meant by it. */
  datatype Node =
    | Number(number: nat, v: nat)
    | Fixed64(number: nat, v: nat)
    | Fixed32(number: nat, v: nat)
    | Text(number: nat, s: string)
    | Message(number: nat, fields: seq<Node>)
    | Blob(number: nat, bs: seq<byte>)

  // ---- The encoder ----

  function EncodeLittleEndian(v: nat, size: nat): (bs: seq<byte>)
    ensures |bs| == size
  {
    if size == 0 then [] else [v % 256] + EncodeLittleEndian(v / 256, size - 1)
  }

  function Tag(number: nat, wire: nat): NonEmpty {
    EncodeVarint(number * 8 + wire)
  }

  function Delimited(number: nat, payload: seq<byte>): Token {
    Token(Tag(number, 2), EncodeVarint(|payload|), payload)
  }

  function ToToken(f: Node): Token {
    match f
    case Number(n, v) => Token(Tag(n, 0), [], EncodeVarint(v))
    case Fixed64(n, v) => Token(Tag(n, 1), [], EncodeLittleEndian(v, 8))
    case Fixed32(n, v) => Token(Tag(n, 5), [], EncodeLittleEndian(v, 4))
    case Text(n, s) => Delimited(n, Utf8.Encode(s))
    case Message(n, fields) => Delimited(n, EncodeMessage(fields))
    case Blob(n, bs) => Delimited(n, bs)
  }

  function ToTokens(fs: seq<Node>): (ts: seq<Token>)
    ensures |ts| == |fs|
    decreases fs, 0
  {
    if fs == [] then [] else [ToToken(fs[0])] + ToTokens(fs[1..])
  }

  function EncodeMessage(fs: seq<Node>): seq<byte>
    decreases fs, 1
  {
    AllBytes(ToTokens(fs))
  }

  /** What a tag, a varint and a length prefix can carry through the reader. */
  predicate InRange(f: Node) {
    && f.number * 8 + 7 < Pow2(70)
    && match f
       case Number(_, v) => v < Pow2(70)
       case Fixed64(_, v) => v < Pow2(64)
       case Fixed32(_, v) => v < Pow2(32)
       case Text(_, s) => |Utf8.Encode(s)| < Pow2(70)
       case Message(_, fields) => |EncodeMessage(fields)| < Pow2(70) && AllInRange(fields)
       case Blob(_, bs) => |bs| < Pow2(70)
  }

  predicate AllInRange(fs: seq<Node>) {
    if fs == [] then true else InRange(fs[0]) && AllInRange(fs[1..])
  }

  // ---- What the sender meant, as the walk would show it ----

  function Meant(f: Node): PyVal {
    match f
    case Number(_, v) => PInt(v)
    case Fixed64(_, v) => PInt(v)
    case Fixed32(_, v) => PInt(v)
    case Text(_, s) => PStr(s)
    case Message(_, fields) => PDict(Group(AllMeant(fields)))
    case Blob(_, bs) => PDict(BytesDict(bs))
  }

  function AllMeant(fs: seq<Node>): (es: seq<Entry>)
    ensures |es| == |fs|
  {
    if fs == [] then [] else [Entry(FieldKey(fs[0].number), Meant(fs[0]))] + AllMeant(fs[1..])
  }

  /** The guesses of the classifier are right for this field: its text passes the text test; its
      nested message is non-empty and fails it; its bytes are non-empty, fail it and do not parse. */
  predicate Readable(f: Node, printable: string -> bool) {
    match f
    case Text(_, s) => s == "" || ShownAsText(s, printable)
    case Message(_, fields) =>
      fields != [] && TextOf(EncodeMessage(fields), printable).None? && AllReadable(fields, printable)
    case Blob(_, bs) => bs != [] && TextOf(bs, printable).None? && ReadTokens(bs).Err?
    case _ => true
  }

  predicate AllReadable(fs: seq<Node>, printable: string -> bool) {
    if fs == [] then true else Readable(fs[0], printable) && AllReadable(fs[1..], printable)
  }

  // ---- The tokens of an encoding ----

  lemma ByteFits(v: nat, k: nat)
    requires v < Pow2(8 * (k + 1))
    ensures v / 256 < Pow2(8 * k)
  {
    Pow2Add(8, 8 * k);
    Pow2Of7();
    assert Pow2(8) == 2 * Pow2(7);
    assert 8 * (k + 1) == 8 + 8 * k;
  }

  lemma {:induction false} LittleEndianRoundTrip(v: nat, size: nat)
    requires v < Pow2(8 * size)
    ensures LittleEndian(EncodeLittleEndian(v, size)) == v
  {
    if size > 0 {
      ByteFits(v, size - 1);
      LittleEndianRoundTrip(v / 256, size - 1);
      var bs := EncodeLittleEndian(v, size);
      assert bs[1..] == EncodeLittleEndian(v / 256, size - 1);
    }
  }

  lemma TagMeans(number: nat, wire: nat)
    requires wire < 8 && number * 8 + 7 < Pow2(70)
    ensures IsVarint(Tag(number, wire))
    ensures VarintValue(Tag(number, wire)) / 8 == number && VarintValue(Tag(number, wire)) % 8 == wire
  {
    EncodeVarintIsVarint(number * 8 + wire, 9);
  }

  lemma TokenOf(f: Node)
    requires InRange(f)
    ensures IsToken(ToToken(f), false)
    ensures ToToken(f).Number() == f.number
    ensures match f
            case Number(_, v) => ToToken(f).Content() == Scalar(v)
            case Fixed64(_, v) => ToToken(f).Content() == Scalar(v)
            case Fixed32(_, v) => ToToken(f).Content() == Scalar(v)
            case Text(_, s) => ToToken(f).Content() == Chunk(Utf8.Encode(s))
            case Message(_, fields) => ToToken(f).Content() == Chunk(EncodeMessage(fields))
            case Blob(_, bs) => ToToken(f).Content() == Chunk(bs)
  {
    match f
    case Number(n, v) => TagMeans(n, 0); EncodeVarintIsVarint(v, 9);
    case Fixed64(n, v) => TagMeans(n, 1); LittleEndianRoundTrip(v, 8);
    case Fixed32(n, v) => TagMeans(n, 5); LittleEndianRoundTrip(v, 4);
    case Text(n, s) => TagMeans(n, 2); EncodeVarintIsVarint(|Utf8.Encode(s)|, 9);
    case Message(n, fields) => TagMeans(n, 2); EncodeVarintIsVarint(|EncodeMessage(fields)|, 9);
    case Blob(n, bs) => TagMeans(n, 2); EncodeVarintIsVarint(|bs|, 9);
  }

  lemma VarintOnlyForNumbers(f: Node)
    requires InRange(f)
    ensures ToToken(f).WireType() == 0 <==> f.Number?
  {
    var wire := if f.Number? then 0 else if f.Fixed64? then 1 else if f.Fixed32? then 5 else 2;
    TagMeans(f.number, wire);
    assert ToToken(f).tag == Tag(f.number, wire);
  }

  lemma {:induction false} TokensOf(fs: seq<Node>)
    requires AllInRange(fs)
    ensures forall i :: 0 <= i < |fs| ==> IsToken(ToTokens(fs)[i], false)
  {
    if fs != [] {
      TokenOf(fs[0]);
      TokensOf(fs[1..]);
      forall i | 0 <= i < |fs| ensures IsToken(ToTokens(fs)[i], false) {
        assert i == 0 || ToTokens(fs)[i] == ToTokens(fs[1..])[i - 1];
      }
    }
  }

  /** An encoding is cut back into the tokens it was made of. */
  lemma EncodingTokenizes(fs: seq<Node>)
    requires AllInRange(fs)
    ensures ReadTokens(EncodeMessage(fs)) == Ok(ToTokens(fs))
  {
    TokensOf(fs);
    TokensComplete(ToTokens(fs));
  }

  // ---- Equal groupings of the same keys are groupings of equal entries ----

  predicate SameKeys(es: seq<Entry>, es': seq<Entry>) {
    |es| == |es'| && forall i :: 0 <= i < |es| ==> es[i].key == es'[i].key
  }

  lemma {:induction false} SameCounts(es: seq<Entry>, es': seq<Entry>, key: string)
    requires SameKeys(es, es')
    ensures |ValuesOf(es, key)| == |ValuesOf(es', key)|
    ensures FirstKeys(es) == FirstKeys(es')
  {
    if es != [] {
      SameCounts(es[..|es| - 1], es'[..|es'| - 1], key);
    }
  }

  lemma {:induction false} ValuesDetermine(es: seq<Entry>, es': seq<Entry>)
    requires SameKeys(es, es')
    requires forall key :: ValuesOf(es, key) == ValuesOf(es', key)
    ensures es == es'
  {
    if es != [] {
      var init, e, init', e' := es[..|es| - 1], es[|es| - 1], es'[..|es'| - 1], es'[|es'| - 1];
      assert e.key == e'.key;
      var vals := ValuesOf(es, e.key);
      assert vals == ValuesOf(init, e.key) + [e.val] && vals == ValuesOf(init', e.key) + [e'.val];
      assert e.val == vals[|vals| - 1] == e'.val;
      forall key ensures ValuesOf(init, key) == ValuesOf(init', key) {
        var all := ValuesOf(es, key);
        assert all == ValuesOf(es', key);
        if key == e.key {
          assert ValuesOf(init, key) == all[..|all| - 1] && ValuesOf(init', key) == all[..|all| - 1];
        } else {
          assert all == ValuesOf(init, key) && all == ValuesOf(init', key);
        }
      }
      ValuesDetermine(init, init');
      assert es == init + [e] && es' == init' + [e'];
    }
  }

  lemma GroupInjective(es: seq<Entry>, es': seq<Entry>)
    requires SameKeys(es, es') && NoLists(es) && NoLists(es') && Group(es) == Group(es')
    ensures es == es'
  {
    GroupIsGrouping(es);
    GroupIsGrouping(es');
    forall key ensures ValuesOf(es, key) == ValuesOf(es', key) {
      SameCounts(es, es', key);
      ValuesAreNoLists(es, key);
      ValuesAreNoLists(es', key);
      KeyPresence(es, Group(es), key);
      var vals, vals' := ValuesOf(es, key), ValuesOf(es', key);
      if vals != [] {
        var i := IndexOf(Group(es), key);
        assert Slot(vals) == Group(es)[i].val == Slot(vals');
        if |vals| == 1 {
          assert vals == [vals[0]] && vals' == [vals'[0]];
        }
      }
    }
    ValuesDetermine(es, es');
  }

  lemma {:induction false} MeantAt(fs: seq<Node>, i: nat)
    requires i < |fs|
    ensures AllMeant(fs)[i] == Entry(FieldKey(fs[i].number), Meant(fs[i]))
    ensures ToTokens(fs)[i] == ToToken(fs[i])
  {
    if i > 0 {
      MeantAt(fs[1..], i - 1);
    }
  }

  lemma {:induction false} InRangeAt(fs: seq<Node>, i: nat)
    requires i < |fs| && AllInRange(fs)
    ensures InRange(fs[i])
  {
    if i > 0 {
      InRangeAt(fs[1..], i - 1);
    }
  }

  lemma MeantShape(fs: seq<Node>, printable: string -> bool)
    requires AllInRange(fs)
    ensures SameKeys(Entries(ToTokens(fs), printable), AllMeant(fs)) && NoLists(AllMeant(fs))
  {
    forall i | 0 <= i < |fs|
      ensures Entries(ToTokens(fs), printable)[i].key == AllMeant(fs)[i].key && !AllMeant(fs)[i].val.PList?
    {
      MeantAt(fs, i);
      EntriesAt(ToTokens(fs), printable, i);
      InRangeAt(fs, i);
      TokenOf(fs[i]);
    }
  }

  // ---- The round trip ----

  lemma TextReadsBack(s: string, printable: string -> bool)
    ensures Classify(Utf8.Encode(s), printable) == PStr(s) <==> s == "" || ShownAsText(s, printable)
  {
    Utf8.DecodeIff(Utf8.Encode(s), s);
    if s != "" {
      assert |Utf8.Encode(s)| >= 1;
    }
    ClassifyTells(Utf8.Encode(s), printable);
  }

  lemma BlobReadsBack(bs: seq<byte>, printable: string -> bool)
    ensures Classify(bs, printable) == PDict(BytesDict(bs))
       <==> bs != [] && TextOf(bs, printable).None? && ReadTokens(bs).Err?
  {
    ClassifyTells(bs, printable);
    assert IsBytesDict(PDict(BytesDict(bs)));
    if bs != [] && TextOf(bs, printable).None? {
      ParsedChunkIsNested(bs, printable);
    }
  }

  lemma {:induction false} MessageReadsBack(fields: seq<Node>, printable: string -> bool)
    requires AllInRange(fields)
    ensures Classify(EncodeMessage(fields), printable) == PDict(Group(AllMeant(fields)))
       <==> fields != [] && TextOf(EncodeMessage(fields), printable).None? && AllReadable(fields, printable)
    decreases fields, 2
  {
    var chunk := EncodeMessage(fields);
    EncodingTokenizes(fields);
    if fields == [] {
      assert chunk == [];
    } else if TextOf(chunk, printable).None? {
      assert chunk != [];
      ParsedChunkIsNested(chunk, printable);
      RoundTripIff(fields, printable);
    }
  }

  lemma {:induction false} FieldReadsBack(f: Node, printable: string -> bool)
    requires InRange(f)
    ensures TokenEntry(ToToken(f), printable) == Entry(FieldKey(f.number), Meant(f)) <==> Readable(f, printable)
    decreases f, 0
  {
    TokenOf(f);
    match f
    case Text(_, s) => TextReadsBack(s, printable);
    case Message(_, fields) => MessageReadsBack(fields, printable);
    case Blob(_, bs) => BlobReadsBack(bs, printable);
    case _ =>
  }

  lemma {:induction false} FieldsReadBack(fs: seq<Node>, printable: string -> bool)
    requires AllInRange(fs)
    ensures Entries(ToTokens(fs), printable) == AllMeant(fs) <==> AllReadable(fs, printable)
    decreases fs, 0
  {
    if fs != [] {
      FieldReadsBack(fs[0], printable);
      FieldsReadBack(fs[1..], printable);
      var head, tail := TokenEntry(ToToken(fs[0]), printable), Entries(ToTokens(fs[1..]), printable);
      assert ToTokens(fs)[1..] == ToTokens(fs[1..]);
      assert Entries(ToTokens(fs), printable) == [head] + tail;
      assert AllMeant(fs)[1..] == AllMeant(fs[1..]) && ([head] + tail)[1..] == tail;
    }
  }

  /** Decoding an encoded tree returns that tree, repeated fields grouped, exactly when the
      classifier's guesses are right for every field in it. */
  lemma {:induction false} RoundTripIff(fs: seq<Node>, printable: string -> bool)
    requires AllInRange(fs)
    ensures DecodeProtobuf(EncodeMessage(fs), printable) == Ok(Group(AllMeant(fs))) <==> AllReadable(fs, printable)
    ensures DecodeProtobuf(EncodeMessage(fs), printable).Ok?
    decreases fs, 1
  {
    EncodingTokenizes(fs);
    FieldsReadBack(fs, printable);
    MeantShape(fs, printable);
    EntriesHaveNoLists(ToTokens(fs), printable);
    if DecodeProtobuf(EncodeMessage(fs), printable) == Ok(Group(AllMeant(fs))) {
      GroupInjective(Entries(ToTokens(fs), printable), AllMeant(fs));
    }
  }

  // ---- Input cut short ----

  /** The token of a field of which only part of the payload is there. */
  function Cut(f: Node, kept: nat): Token
    requires kept <= |ToToken(f).payload|
  {
    ToToken(f).(payload := ToToken(f).payload[..kept])
  }

  /** A message cut anywhere inside the payload of its last field is accepted, the short payload taken
      for the whole field, if and only if that field is delimited or of fixed width: only a varint
      shows that it was cut. */
  lemma TruncationAcceptedIff(fs: seq<Node>, f: Node, kept: nat)
    requires AllInRange(fs) && InRange(f) && kept < |ToToken(f).payload|
    ensures !f.Number? ==> ReadTokens(EncodeMessage(fs) + Cut(f, kept).Bytes()) == Ok(ToTokens(fs) + [Cut(f, kept)])
    ensures f.Number? ==> ReadTokens(EncodeMessage(fs) + Cut(f, kept).Bytes()) == Err(TruncatedVarint)
  {
    TokensOf(fs);
    TokenOf(f);
    VarintOnlyForNumbers(f);
    if f.Number? {
      CutVarint(ToToken(f), kept);
      TailFails(ToTokens(fs), Cut(f, kept).Bytes(), TruncatedVarint);
    } else {
      CutPayload(ToToken(f), kept);
      AllBytesSnoc(ToTokens(fs), Cut(f, kept));
      LastMayBeCut(ToTokens(fs), Cut(f, kept));
    }
  }

  lemma CutPayload(t: Token, kept: nat)
    requires IsToken(t, false) && t.WireType() != 0 && kept < |t.payload|
    ensures IsToken(t.(payload := t.payload[..kept]), true)
  {
  }

  lemma CutVarint(t: Token, kept: nat)
    requires IsToken(t, false) && t.WireType() == 0 && kept < |t.payload|
    ensures ReadToken(t.(payload := t.payload[..kept]).Bytes()) == Err(TruncatedVarint)
  {
    var rest := t.payload[..kept];
    assert t.(payload := rest).Bytes() == t.tag + rest;
    VarintPrefix(t.tag, rest);
    NoTerminator(rest);
  }

  lemma CutTag(t: Token, n: nat)
    requires IsToken(t, false) && 0 < n < |t.tag|
    ensures ReadToken(t.Bytes()[..n]) == Err(TruncatedVarint)
  {
    assert t.Bytes()[..n] == t.tag[..n];
    NoTerminator(t.tag[..n]);
  }

  lemma CutLength(t: Token, n: nat)
    requires IsToken(t, false) && t.WireType() == 2 && |t.tag| <= n < |t.tag| + |t.len|
    ensures ReadToken(t.Bytes()[..n]) == Err(TruncatedVarint)
  {
    var rest := t.len[..n - |t.tag|];
    assert t.Bytes()[..n] == t.tag + rest;
    VarintPrefix(t.tag, rest);
    NoTerminator(rest);
  }

  lemma CutInPayload(t: Token, n: nat)
    requires |t.tag| + |t.len| <= n < |t.Bytes()|
    ensures t.Bytes()[..n] == t.(payload := t.payload[..n - |t.tag| - |t.len|]).Bytes()
  {
  }

  /** The first `n` bytes of one token. */
  lemma CutToken(t: Token, n: nat)
    requires IsToken(t, false) && 0 < n < |t.Bytes()|
    ensures if t.WireType() != 0 && n >= |t.tag| + |t.len|
            then ReadTokens(t.Bytes()[..n]) == Ok([t.(payload := t.payload[..n - |t.tag| - |t.len|])])
            else ReadTokens(t.Bytes()[..n]) == Err(TruncatedVarint)
  {
    if n < |t.tag| {
      CutTag(t, n);
    } else if n < |t.tag| + |t.len| {
      CutLength(t, n);
    } else {
      var kept := n - |t.tag| - |t.len|;
      CutInPayload(t, n);
      if t.WireType() == 0 {
        CutVarint(t, kept);
      } else {
        CutPayload(t, kept);
        LoneToken(t.(payload := t.payload[..kept]));
      }
    }
  }

  lemma LoneToken(t: Token)
    requires IsToken(t, true)
    ensures ReadTokens(t.Bytes()) == Ok([t])
  {
    TokensComplete([t]);
    assert [t][1..] == [] && t.Bytes() + [] == t.Bytes();
    assert AllBytes([t]) == t.Bytes() + AllBytes([]);
  }

  /** The walk takes the bytes, or misses the end of a varint in them. */
  predicate Outcome(bs: seq<byte>, clean: bool) {
    if clean then ReadTokens(bs).Ok? else ReadTokens(bs) == Err(TruncatedVarint)
  }

  lemma WholeFirst(t: Token, rest: seq<byte>, clean: bool)
    requires IsToken(t, false) && Outcome(rest, clean)
    ensures Outcome(t.Bytes() + rest, clean)
  {
    var bs := t.Bytes() + rest;
    TokenComplete(t, rest);
    assert bs[|t.Bytes()|..] == rest;
  }

  lemma CutSplits(t: Token, rest: seq<byte>, n: nat)
    requires n <= |t.Bytes()| + |rest|
    ensures (t.Bytes() + rest)[..n] == if n >= |t.Bytes()| then t.Bytes() + rest[..n - |t.Bytes()|] else t.Bytes()[..n]
  {
  }

  /** The first `n` bytes of these tokens end between two of them, or in the payload of one that is not
      a varint (wire type 0). */
  predicate CutClean(ts: seq<Token>, n: nat) {
    if n == 0 || ts == [] then n == 0
    else if n >= |ts[0].Bytes()| then CutClean(ts[1..], n - |ts[0].Bytes()|)
    else ts[0].WireType() != 0 && n >= |ts[0].tag| + |ts[0].len|
  }

  lemma {:induction false} TokensPrefix(ts: seq<Token>, n: nat)
    requires (forall i :: 0 <= i < |ts| ==> IsToken(ts[i], false)) && n <= |AllBytes(ts)|
    ensures Outcome(AllBytes(ts)[..n], CutClean(ts, n))
    decreases ts, 0
  {
    if n > 0 && ts != [] {
      PrefixStep(ts[0], ts[1..], n);
    }
  }

  lemma PrefixStep(t: Token, ts: seq<Token>, n: nat)
    requires IsToken(t, false) && (forall i :: 0 <= i < |ts| ==> IsToken(ts[i], false))
    requires 0 < n <= |t.Bytes()| + |AllBytes(ts)|
    ensures if n >= |t.Bytes()| then Outcome((t.Bytes() + AllBytes(ts))[..n], CutClean(ts, n - |t.Bytes()|))
            else Outcome((t.Bytes() + AllBytes(ts))[..n], t.WireType() != 0 && n >= |t.tag| + |t.len|)
    decreases ts, 1
  {
    CutSplits(t, AllBytes(ts), n);
    if n >= |t.Bytes()| {
      var k := n - |t.Bytes()|;
      TokensPrefix(ts, k);
      WholeFirst(t, AllBytes(ts)[..k], CutClean(ts, k));
    } else {
      CutToken(t, n);
    }
  }

  /** Every prefix of an encoding: it is accepted if and only if it ends between two fields or in the
      payload of a field that is not a varint; otherwise a varint (a value, a tag or a length) was cut
      and the walk says so. */
  lemma PrefixAcceptedIff(fs: seq<Node>, n: nat, printable: string -> bool)
    requires AllInRange(fs) && n <= |EncodeMessage(fs)|
    ensures DecodeProtobuf(EncodeMessage(fs)[..n], printable).Ok? <==> CutClean(ToTokens(fs), n)
    ensures !CutClean(ToTokens(fs), n) ==> DecodeProtobuf(EncodeMessage(fs)[..n], printable) == Err(TruncatedVarint)
  {
    TokensOf(fs);
    TokensPrefix(ToTokens(fs), n);
  }

  /** Behind whole tokens, bytes that do not begin with a token fail the walk with their error. */
  lemma {:induction false} TailFails(ts: seq<Token>, tail: seq<byte>, error: WireError)
    requires forall i :: 0 <= i < |ts| ==> IsToken(ts[i], false)
    requires tail != [] && ReadToken(tail) == Err(error)
    ensures ReadTokens(AllBytes(ts) + tail) == Err(error)
  {
    if ts == [] {
      assert AllBytes(ts) + tail == tail;
    } else {
      var t, rest := ts[0], AllBytes(ts[1..]) + tail;
      assert AllBytes(ts) + tail == t.Bytes() + rest;
      assert (t.Bytes() + rest)[|t.Bytes()|..] == rest;
      TokenComplete(t, rest);
      TailFails(ts[1..], tail, error);
    }
  }

  lemma LastMayBeCut(ts: seq<Token>, cut: Token)
    requires forall i :: 0 <= i < |ts| ==> IsToken(ts[i], false)
    requires IsToken(cut, true)
    ensures ReadTokens(AllBytes(ts + [cut])) == Ok(ts + [cut])
  {
    TokensComplete(ts + [cut]);
  }

  lemma {:induction false} AllBytesSnoc(ts: seq<Token>, t: Token)
    ensures AllBytes(ts + [t]) == AllBytes(ts) + t.Bytes()
  {
    if ts == [] {
      assert ts + [t] == [t] && [t][1..] == [];
    } else {
      AllBytesSnoc(ts[1..], t);
      assert (ts + [t])[1..] == ts[1..] + [t];
    }
  }
}
