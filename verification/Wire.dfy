/** The protobuf wire walker of app/services/decode.py: `decode_protobuf` and
    `_decode_length_delimited`. */
module Wire {
  import opened Common
  import opened Bits
  import opened Varint
  import Utf8
  import Base64

  // ---- Python values the walker builds ----

  /** The values a walk produces; a dict keeps its insertion order, as Python's does. */
  datatype PyVal =
    | PInt(n: nat)
    | PStr(s: string)
    | PList(items: seq<PyVal>)
    | PDict(entries: Dict)

  datatype Entry = Entry(key: string, val: PyVal)

  type Dict = seq<Entry>

  /** The place of `key` in the dict, or its size when absent. */
  function IndexOf(d: Dict, key: string): (i: nat)
    ensures i <= |d|
    ensures i < |d| ==> d[i].key == key
    ensures forall j :: 0 <= j < i ==> d[j].key != key
  {
    if d == [] then 0
    else if d[0].key == key then 0
    else IndexOf(d[1..], key) + 1
  }

  /** What a second and later occurrence of a key does to the value stored under it. */
  function Collect(prior: PyVal, val: PyVal): PyVal {
    match prior
    case PList(items) => PList(items + [val])
    case _ => PList([prior, val])
  }

  function AddField(d: Dict, e: Entry): Dict {
    var i := IndexOf(d, e.key);
    if i < |d| then d[i := Entry(e.key, Collect(d[i].val, e.val))]
    else d + [e]
  }

  /** The dict after all the occurrences in `es`, in order. */
  function Group(es: seq<Entry>): Dict {
    if es == [] then [] else AddField(Group(es[..|es| - 1]), es[|es| - 1])
  }

  /** `f"field_{field_no}"` */
  function FieldKey(fieldNo: nat): string {
    "field_" + Decimal(fieldNo)
  }

  /** `int.from_bytes(bs, "little")` */
  function LittleEndian(bs: seq<byte>): nat {
    if bs == [] then 0 else bs[0] + 256 * LittleEndian(bs[1..])
  }

  datatype Payload = Scalar(n: nat) | Chunk(bs: seq<byte>) {
    function Size(): nat {
      if Chunk? then |bs| else 0
    }
  }

  // ---- Tokens: one field as it lies on the wire ----

  type NonEmpty = bs: seq<byte> | |bs| >= 1 witness [0]

  /** A field cut into its tag, its length prefix (wire type 2 only) and its payload. */
  datatype Token = Token(tag: NonEmpty, len: seq<byte>, payload: seq<byte>) {
    function Number(): nat {
      VarintValue(tag) / 8
    }
    function WireType(): nat {
      VarintValue(tag) % 8
    }
    /** The number carried, or the chunk still to be classified. */
    function Content(): (p: Payload)
      ensures p.Size() <= |payload|
    {
      BodyContent(WireType(), payload)
    }
    function Bytes(): (bs: seq<byte>)
      ensures |bs| == |tag| + |len| + |payload| >= 1
    {
      tag + len + payload
    }
  }

  function BodyContent(wire: nat, payload: seq<byte>): Payload {
    if wire == 0 then Scalar(VarintValue(payload))
    else if wire == 2 then Chunk(payload)
    else Scalar(LittleEndian(payload))
  }

  datatype Body = Body(len: seq<byte>, payload: seq<byte>)

  function AllBytes(ts: seq<Token>): seq<byte> {
    if ts == [] then [] else ts[0].Bytes() + AllBytes(ts[1..])
  }

  /** The part of a field after its tag. Slices past the end are silently short, so a fixed-width or
      length-delimited payload is cut where the input ends. */
  function ReadBody(wire: nat, rest: seq<byte>): (r: Result<Body, WireError>)
    ensures r.Ok? ==> r.value.len + r.value.payload <= rest
  {
    match wire
    case 0 =>
      var v :- ReadVarint(rest);
      Ok(Body([], rest[..v.size]))
    case 1 => Ok(Body([], Take(rest, 8)))
    case 2 =>
      var l :- ReadVarint(rest);
      var payload := Take(rest[l.size..], l.value);
      assert rest[..l.size] + payload == rest[..l.size + |payload|];
      Ok(Body(rest[..l.size], payload))
    case 5 => Ok(Body([], Take(rest, 4)))
    case _ => Err(UnsupportedWireType(wire))
  }

  /** The field at the front of `bs`. */
  function ReadToken(bs: seq<byte>): (r: Result<Token, WireError>)
    ensures r.Ok? ==> r.value.Bytes() <= bs
  {
    var head :- ReadVarint(bs);
    var body :- ReadBody(head.value % 8, bs[head.size..]);
    TokenPrefix(bs, head.size, body);
    Ok(Token(bs[..head.size], body.len, body.payload))
  }

  lemma TokenPrefix(bs: seq<byte>, k: nat, body: Body)
    requires 1 <= k <= |bs| && body.len + body.payload <= bs[k..]
    ensures Token(bs[..k], body.len, body.payload).Bytes() <= bs
  {
    var n := |body.len| + |body.payload|;
    assert bs[..k] + body.len + body.payload == bs[..k] + bs[k..][..n] == bs[..k + n];
  }

  function ReadTokens(bs: seq<byte>): (r: Result<seq<Token>, WireError>)
    ensures r.Ok? ==> AllBytes(r.value) == bs
    decreases |bs|
  {
    if bs == [] then Ok([])
    else
      var t :- ReadToken(bs);
      var rest :- ReadTokens(bs[|t.Bytes()|..]);
      assert bs == t.Bytes() + bs[|t.Bytes()|..];
      assert ([t] + rest)[1..] == rest;
      Ok([t] + rest)
  }

  // ---- Values ----

  /** The text test: `str.isprintable` is the parameter. */
  predicate ShownAsText(text: string, printable: string -> bool) {
    printable(text) || exists i :: 0 <= i < |text| && (text[i] == '\n' || text[i] == '\t' || text[i] == ' ')
  }

  const BYTES_KEY := "__bytes_b64__"

  function BytesDict(chunk: seq<byte>): Dict {
    [Entry(BYTES_KEY, PStr(Base64.Encode(chunk)))]
  }

  /** The text of a chunk that is to be shown as text. */
  function TextOf(chunk: seq<byte>, printable: string -> bool): Option<string> {
    match Utf8.Decode(chunk)
    case Some(text) => if ShownAsText(text, printable) then Some(text) else None
    case None => None
  }

  /** `_decode_length_delimited`: text, else a nested message, else base64. */
  function Classify(chunk: seq<byte>, printable: string -> bool): PyVal
    decreases |chunk|, 2
  {
    if chunk == [] then PStr("")
    else if TextOf(chunk, printable).Some? then PStr(TextOf(chunk, printable).value)
    else
      match DecodeProtobuf(chunk, printable)
      case Ok(nested) => if nested != [] then PDict(nested) else PDict(BytesDict(chunk))
      case Err(_) => PDict(BytesDict(chunk))
  }

  function PayloadValue(p: Payload, printable: string -> bool): PyVal
    decreases p.Size(), 3
  {
    match p
    case Scalar(n) => PInt(n)
    case Chunk(bs) => Classify(bs, printable)
  }

  function TokenEntry(t: Token, printable: string -> bool): Entry
    decreases |t.payload|, 4
  {
    Entry(FieldKey(t.Number()), PayloadValue(t.Content(), printable))
  }

  function Entries(ts: seq<Token>, printable: string -> bool): (es: seq<Entry>)
    ensures |es| == |ts|
    decreases |AllBytes(ts)|, 0
  {
    if ts == [] then []
    else [TokenEntry(ts[0], printable)] + Entries(ts[1..], printable)
  }

  /** `decode_protobuf`, as a function of the input. */
  function DecodeProtobuf(bs: seq<byte>, printable: string -> bool): Result<Dict, WireError>
    decreases |bs|, 1
  {
    var ts :- ReadTokens(bs);
    Ok(Group(Entries(ts, printable)))
  }

  lemma {:induction false} EntriesAt(ts: seq<Token>, printable: string -> bool, i: nat)
    requires i < |ts|
    ensures Entries(ts, printable)[i] == TokenEntry(ts[i], printable)
  {
    if i > 0 {
      EntriesAt(ts[1..], printable, i - 1);
    }
  }

  // ---- The walk as the source runs it ----

  lemma GroupAppend(es: seq<Entry>, e: Entry)
    ensures Group(es + [e]) == AddField(Group(es), e)
  {
    assert (es + [e])[..|es|] == es;
  }

  /** One field of the loop: its number, its content and the position after it, which overruns the
      input when the payload was cut short. */
  datatype Field = Field(number: nat, content: Payload, next: nat)

  /** `f` is what the token at the front of `data[start..]` says. */
  ghost predicate IsFieldAt(data: seq<byte>, start: nat, f: Field) {
    && start <= |data| && start < f.next
    && ReadToken(data[start..]).Ok?
    && var t := ReadToken(data[start..]).value;
       f.number == t.Number() && f.content == t.Content() && Drop(data, f.next) == data[start..][|t.Bytes()|..]
  }

  datatype Cut = Cut(content: Payload, next: nat)

  ghost predicate IsCutAt(data: seq<byte>, start: nat, wire: nat, c: Cut) {
    && start <= c.next && start <= |data|
    && ReadBody(wire, data[start..]).Ok?
    && var body := ReadBody(wire, data[start..]).value;
       && c.content == BodyContent(wire, body.payload)
       && Drop(data, c.next) == data[start..][|body.len| + |body.payload|..]
  }

  /** The content of a field whose tag ends at `start`, and the position after it. */
  method ReadContentAt(data: seq<byte>, start: nat, wire: nat) returns (r: Result<Cut, WireError>)
    requires start <= |data|
    ensures r.Ok? ==> IsCutAt(data, start, wire, r.value)
    ensures r.Err? ==> ReadBody(wire, data[start..]) == Err(r.error)
  {
    if wire == 0 {
      var v := ReadVarintAt(data, start);
      ReadAtIsRead(data, start, v);
      if v.Err? {
        return Err(v.error);
      }
      VarintCutAt(data, start, v.value.size, v.value.value);
      return Ok(Cut(Scalar(v.value.value), v.value.size));
    } else if wire == 1 {
      FixedCutAt(data, start, 1, 8);
      return Ok(Cut(Scalar(LittleEndian(Slice(data, start, start + 8))), start + 8));
    } else if wire == 2 {
      var l := ReadVarintAt(data, start);
      ReadAtIsRead(data, start, l);
      if l.Err? {
        return Err(l.error);
      }
      var length: nat, pos: nat := l.value.value, l.value.size;
      DelimitedCutAt(data, start, pos, length);
      return Ok(Cut(Chunk(Slice(data, pos, pos + length)), pos + length));
    } else if wire == 5 {
      FixedCutAt(data, start, 5, 4);
      return Ok(Cut(Scalar(LittleEndian(Slice(data, start, start + 4))), start + 4));
    } else {
      return Err(UnsupportedWireType(wire));
    }
  }

  lemma VarintCutAt(data: seq<byte>, start: nat, pos: nat, value: nat)
    requires start < pos <= |data| && ReadVarint(data[start..]) == Ok(Read(value, pos - start))
    ensures IsCutAt(data, start, 0, Cut(Scalar(value), pos))
  {
    ReadVarintIff(data[start..], value, pos - start);
    assert data[start..][pos - start..] == data[pos..];
  }

  lemma FixedCutAt(data: seq<byte>, start: nat, wire: nat, width: nat)
    requires start <= |data| && ((wire == 1 && width == 8) || (wire == 5 && width == 4))
    ensures IsCutAt(data, start, wire, Cut(Scalar(LittleEndian(Slice(data, start, start + width))), start + width))
  {
    SliceAt(data, start, start, width);
  }

  lemma DelimitedCutAt(data: seq<byte>, start: nat, pos: nat, length: nat)
    requires start < pos <= |data| && ReadVarint(data[start..]) == Ok(Read(length, pos - start))
    ensures IsCutAt(data, start, 2, Cut(Chunk(Slice(data, pos, pos + length)), pos + length))
  {
    SliceAt(data, start, pos, length);
  }

  /** A slice of the data that may reach past its end, seen from `start`. */
  lemma SliceAt(data: seq<byte>, start: nat, pos: nat, length: nat)
    requires start <= pos <= |data|
    ensures data[start..][pos - start..] == data[pos..]
    ensures var payload := Slice(data, pos, pos + length);
            && payload == Take(data[pos..], length)
            && Drop(data, pos + length) == data[start..][pos - start + |payload|..]
  {
  }

  /** A field, cut at `start`. */
  method ReadFieldAt(data: seq<byte>, start: nat) returns (r: Result<Field, WireError>)
    requires start < |data|
    ensures r.Ok? ==> IsFieldAt(data, start, r.value)
    ensures r.Err? ==> ReadToken(data[start..]) == Err(r.error)
  {
    var head := ReadVarintAt(data, start);
    ReadAtIsRead(data, start, head);
    if head.Err? {
      return Err(head.error);
    }
    var tag: nat, pos: nat := head.value.value, head.value.size;
    ByteMasks(0, tag);
    var fieldNo, wire := ShiftRight(tag, 3), BitAnd(tag, 7);
    var cut := ReadContentAt(data, pos, wire);
    TokenAt(data, start, pos, tag);
    if cut.Err? {
      return Err(cut.error);
    }
    return Ok(Field(fieldNo, cut.value.content, cut.value.next));
  }

  /** The token whose tag lies between `start` and `pos`. */
  lemma TokenAt(data: seq<byte>, start: nat, pos: nat, tag: nat)
    requires start < pos <= |data| && ReadVarint(data[start..]) == Ok(Read(tag, pos - start))
    ensures var body := ReadBody(tag % 8, data[pos..]);
            && (body.Err? ==> ReadToken(data[start..]) == Err(body.error))
            && (body.Ok? ==>
                  && ReadToken(data[start..]).Ok?
                  && var t := ReadToken(data[start..]).value;
                     && t.Number() == tag / 8 && t.Content() == BodyContent(tag % 8, body.value.payload)
                     && data[start..][|t.Bytes()|..] == data[pos..][|body.value.len| + |body.value.payload|..])
  {
    var bs, k := data[start..], pos - start;
    ReadVarintIff(bs, tag, k);
    assert bs[k..] == data[pos..];
    var body := ReadBody(tag % 8, data[pos..]);
    if body.Ok? {
      var n := |body.value.len| + |body.value.payload|;
      assert bs[k + n..] == data[pos..][n..];
    }
  }

  /** `result[key]` after one more occurrence, as the loop's last lines store it. */
  method Store(result: Dict, e: Entry) returns (d: Dict)
    ensures d == AddField(result, e)
  {
    d := result;
    var i := IndexOf(d, e.key);
    if i < |d| {
      assert [d[i].val] + [e.val] == [d[i].val, e.val];
      if !d[i].val.PList? {
        d := d[i := Entry(e.key, PList([d[i].val]))];
      }
      d := d[i := Entry(e.key, PList(d[i].val.items + [e.val]))];
      assert d == result[i := Entry(e.key, Collect(result[i].val, e.val))];
    } else {
      d := d + [e];
    }
  }

  /** What is left to do once the entries `done` have been collected. */
  ghost function Continue(done: seq<Entry>, r: Result<seq<Token>, WireError>, printable: string -> bool)
    : Result<Dict, WireError>
  {
    match r
    case Err(e) => Err(e)
    case Ok(ts) => Ok(Group(done + Entries(ts, printable)))
  }

  /** `decode_protobuf`: `pos` may overrun the input on its last field. */
  method WalkProtobuf(data: seq<byte>, printable: string -> bool) returns (r: Result<Dict, WireError>)
    ensures r == DecodeProtobuf(data, printable)
    decreases |data|, 0
  {
    var result: Dict := [];
    var pos := 0;
    ghost var done: seq<Entry> := [];
    WalkStart(data, printable);
    while pos < |data|
      invariant result == Group(done)
      invariant DecodeProtobuf(data, printable) == Continue(done, ReadTokens(Drop(data, pos)), printable)
      decreases |data| - pos
    {
      var field := ReadFieldAt(data, pos);
      if field.Err? {
        return Err(field.error);
      }
      var val: PyVal;
      match field.value.content {
        case Scalar(n) => val := PInt(n);
        case Chunk(chunk) => val := ClassifyChunk(chunk, printable);
      }
      var e := Entry(FieldKey(field.value.number), val);
      WalkStep(done, data, pos, field.value, printable);
      result := Store(result, e);
      pos := field.value.next;
      done := done + [e];
    }
    assert done + [] == done;
    return Ok(result);
  }

  lemma WalkStart(data: seq<byte>, printable: string -> bool)
    ensures DecodeProtobuf(data, printable) == Continue([], ReadTokens(Drop(data, 0)), printable)
  {
    assert Drop(data, 0) == data;
    if ReadTokens(data).Ok? {
      var es := Entries(ReadTokens(data).value, printable);
      assert [] + es == es;
    }
  }

  lemma WalkStep(done: seq<Entry>, data: seq<byte>, start: nat, f: Field, printable: string -> bool)
    requires start < |data| && IsFieldAt(data, start, f)
    ensures f.content.Size() < |data|
    ensures var e := Entry(FieldKey(f.number), PayloadValue(f.content, printable));
            && Group(done + [e]) == AddField(Group(done), e)
            && Continue(done, ReadTokens(Drop(data, start)), printable)
               == Continue(done + [e], ReadTokens(Drop(data, f.next)), printable)
  {
    var e := Entry(FieldKey(f.number), PayloadValue(f.content, printable));
    GroupAppend(done, e);
    var bs := data[start..];
    var t := ReadToken(bs).value;
    assert Drop(data, start) == bs && bs[|t.Bytes()|..] == Drop(data, f.next);
    var rest := ReadTokens(Drop(data, f.next));
    assert ReadTokens(bs) == if rest.Ok? then Ok([t] + rest.value) else rest;
    if rest.Ok? {
      EntriesCons(done, t, rest.value, printable);
    }
  }

  lemma EntriesCons(done: seq<Entry>, t: Token, rest: seq<Token>, printable: string -> bool)
    ensures done + Entries([t] + rest, printable)
         == done + [TokenEntry(t, printable)] + Entries(rest, printable)
  {
    assert ([t] + rest)[1..] == rest;
  }

  /** `_decode_length_delimited` */
  method ClassifyChunk(chunk: seq<byte>, printable: string -> bool) returns (v: PyVal)
    ensures v == Classify(chunk, printable)
    decreases |chunk|, 2
  {
    if chunk == [] {
      return PStr("");
    }
    var text := TextOf(chunk, printable);
    if text.Some? {
      return PStr(text.value);
    }
    var nested := WalkProtobuf(chunk, printable);
    if nested.Ok? && nested.value != [] {
      return PDict(nested.value);
    }
    return PDict(BytesDict(chunk));
  }
}
