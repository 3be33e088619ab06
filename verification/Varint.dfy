/** The base-128 varint reader of app/services/decode.py and the message-index stripper. */
module Varint {
  import opened Common
  import opened Bits

  datatype WireError = TruncatedVarint | VarintTooLong | UnsupportedWireType(wire: nat)

  /** A value and the number of bytes it was read from. */
  datatype Read = Read(value: nat, size: nat)

  const MAX_BYTES: nat := 10

  // ---- Specification: what a varint is ----

  /** A terminated varint: every byte but the last has its continuation bit set. */
  predicate IsVarint(bs: seq<byte>) {
    && 1 <= |bs| <= MAX_BYTES
    && bs[|bs| - 1] < 128
    && forall i :: 0 <= i < |bs| - 1 ==> bs[i] >= 128
  }

  /** The number a varint stands for: the sum of (b_i mod 128) * 128^i. */
  function VarintValue(bs: seq<byte>): nat {
    if bs == [] then 0 else bs[0] % 128 + 128 * VarintValue(bs[1..])
  }

  /** Reads the varint at the front of `bs`, `k` bytes of it having been read already. */
  function ReadVarintFrom(bs: seq<byte>, k: nat): (r: Result<Read, WireError>)
    requires k < MAX_BYTES
    ensures r.Ok? ==> 1 <= r.value.size <= |bs| && r.value.size <= MAX_BYTES - k
    decreases MAX_BYTES - k
  {
    if bs == [] then Err(TruncatedVarint)
    else if bs[0] < 128 then Ok(Read(bs[0], 1))
    else if k == MAX_BYTES - 1 then Err(VarintTooLong)
    else
      var rest :- ReadVarintFrom(bs[1..], k + 1);
      Ok(Read(bs[0] % 128 + 128 * rest.value, rest.size + 1))
  }

  function ReadVarint(bs: seq<byte>): (r: Result<Read, WireError>)
    ensures r.Ok? ==> 1 <= r.value.size <= |bs| && r.value.size <= MAX_BYTES
  {
    ReadVarintFrom(bs, 0)
  }

  // ---- The reader as the source runs it ----

  lemma {:induction false} VarintValueAppend(bs: seq<byte>, b: byte)
    ensures VarintValue(bs + [b]) == VarintValue(bs) + (b % 128) * Pow2(7 * |bs|)
  {
    if bs == [] {
      assert bs + [b] == [b] && [b][1..] == [];
    } else {
      VarintValueAppend(bs[1..], b);
      assert (bs + [b])[1..] == bs[1..] + [b];
      Pow2Add(7, 7 * |bs[1..]|);
      Pow2Of7();
      Regroup(b % 128, Pow2(7 * |bs[1..]|));
    }
  }

  lemma Regroup(d: nat, p: nat)
    ensures 128 * (d * p) == d * (128 * p)
  {
  }

  /** One pass of the loop: ORs the seven payload bits in above those collected, and says whether
      the continuation bit is set. The OR amounts to adding the next base-128 digit. */
  method TakeByte(result: nat, shift: nat, b: byte, ghost taken: seq<byte>) returns (r: nat, more: bool)
    requires shift == 7 * |taken| && result == VarintValue(taken)
    ensures r == VarintValue(taken + [b])
    ensures more <==> b >= 128
  {
    ByteMasks(b, 0);
    VarintValueBound(taken);
    OrOfDisjointIsSum(result, b % 128, shift);
    VarintValueAppend(taken, b);
    r := BitOr(result, ShiftLeft(BitAnd(b, 0x7F), shift));
    more := BitAnd(b, 0x80) != 0;
  }

  /** What the reader returns at `start`: the value and the position after it, or why there is none. */
  ghost predicate IsReadAt(data: seq<byte>, start: nat, r: Result<Read, WireError>) {
    match r
    case Ok(Read(value, next)) =>
      start < next <= |data| && IsVarint(data[start..next]) && value == VarintValue(data[start..next])
    case Err(e) =>
      && (forall i :: start <= i < |data| && i < start + MAX_BYTES ==> data[i] >= 128)
      && e == if |data| >= start + MAX_BYTES then VarintTooLong else TruncatedVarint
  }

  lemma SliceSnoc(data: seq<byte>, start: nat, pos: nat)
    requires start <= pos < |data|
    ensures data[start..pos + 1] == data[start..pos] + [data[pos]]
  {
  }

  /** `_read_varint` */
  method ReadVarintAt(data: seq<byte>, start: nat) returns (r: Result<Read, WireError>)
    ensures IsReadAt(data, start, r)
  {
    var result: nat, shift: nat, pos := 0, 0, start;
    while true
      invariant start <= pos < start + MAX_BYTES && (pos == start || pos <= |data|) && shift == 7 * (pos - start)
      invariant forall i :: start <= i < pos ==> data[i] >= 128
      invariant result == if pos == start then 0 else VarintValue(data[start..pos])
      decreases start + MAX_BYTES - pos
    {
      if pos >= |data| {
        return Err(TruncatedVarint);
      }
      var b := data[pos];
      SliceSnoc(data, start, pos);
      var more;
      result, more := TakeByte(result, shift, b, data[start..pos]);
      pos := pos + 1;
      if !more {
        return Ok(Read(result, pos));
      }
      shift := shift + 7;
      if shift > 63 {
        return Err(VarintTooLong);
      }
    }
  }

  /** What `ReadVarintAt` promises, said of the bytes from `start` on. */
  lemma ReadAtIsRead(data: seq<byte>, start: nat, r: Result<Read, WireError>)
    requires start <= |data| && IsReadAt(data, start, r)
    ensures r.Ok? ==> start < r.value.size <= |data|
    ensures ReadVarint(data[start..]) == match r { case Ok(Read(v, n)) => Ok(Read(v, n - start)) case Err(e) => Err(e) }
  {
    var bs := data[start..];
    match r
    case Ok(Read(v, next)) =>
      assert bs[..next - start] == data[start..next];
      ReadVarintIff(bs, v, next - start);
    case Err(_) => NoTerminator(bs);
  }

  // ---- What the reader accepts ----

  lemma {:induction false} ReadFromMeaning(bs: seq<byte>, k: nat, n: nat)
    requires k < MAX_BYTES && 1 <= n <= MAX_BYTES - k && n <= |bs|
    requires bs[n - 1] < 128 && forall i :: 0 <= i < n - 1 ==> bs[i] >= 128
    ensures ReadVarintFrom(bs, k) == Ok(Read(VarintValue(bs[..n]), n))
    decreases n
  {
    if n > 1 {
      ReadFromMeaning(bs[1..], k + 1, n - 1);
      assert bs[1..][..n - 1] == bs[..n][1..];
    } else {
      assert bs[..1][1..] == [];
    }
  }

  lemma {:induction false} ReadFromPrefix(bs: seq<byte>, k: nat)
    requires k < MAX_BYTES && ReadVarintFrom(bs, k).Ok?
    ensures var n := ReadVarintFrom(bs, k).value.size;
            bs[n - 1] < 128 && forall i :: 0 <= i < n - 1 ==> bs[i] >= 128
    decreases MAX_BYTES - k
  {
    if bs[0] >= 128 {
      ReadFromPrefix(bs[1..], k + 1);
      var n := ReadVarintFrom(bs, k).value.size;
      forall i | 0 <= i < n - 1 ensures bs[i] >= 128 {
        assert i == 0 || bs[i] == bs[1..][i - 1];
      }
      assert bs[n - 1] == bs[1..][n - 2];
    }
  }

  lemma VarintAccepted(bs: seq<byte>, n: nat)
    requires n <= |bs| && IsVarint(bs[..n])
    ensures ReadVarint(bs) == Ok(Read(VarintValue(bs[..n]), n))
  {
    assert bs[..n][n - 1] == bs[n - 1];
    forall i | 0 <= i < n - 1 ensures bs[i] >= 128 {
      assert bs[..n][i] >= 128;
    }
    ReadFromMeaning(bs, 0, n);
  }

  lemma AcceptedVarint(bs: seq<byte>)
    requires ReadVarint(bs).Ok?
    ensures var Read(v, n) := ReadVarint(bs).value; IsVarint(bs[..n]) && v == VarintValue(bs[..n])
  {
    ReadFromPrefix(bs, 0);
    ReadFromMeaning(bs, 0, ReadVarint(bs).value.size);
  }

  /** The reader accepts exactly the byte strings that begin with a terminated varint of at
      most ten bytes, and returns that varint's value and length. */
  lemma ReadVarintIff(bs: seq<byte>, v: nat, n: nat)
    ensures ReadVarint(bs) == Ok(Read(v, n)) <==> n <= |bs| && IsVarint(bs[..n]) && v == VarintValue(bs[..n])
  {
    if ReadVarint(bs).Ok? {
      AcceptedVarint(bs);
    }
    if n <= |bs| && IsVarint(bs[..n]) {
      VarintAccepted(bs, n);
    }
  }

  lemma NoTerminator(bs: seq<byte>)
    requires forall i :: 0 <= i < |bs| && i < MAX_BYTES ==> bs[i] >= 128
    ensures ReadVarint(bs) == Err(if |bs| >= MAX_BYTES then VarintTooLong else TruncatedVarint)
  {
    ReadVarintErrIff(bs);
  }

  lemma {:induction false} ReadFromError(bs: seq<byte>, k: nat)
    requires k < MAX_BYTES && ReadVarintFrom(bs, k).Err?
    ensures forall i :: 0 <= i < |bs| && i < MAX_BYTES - k ==> bs[i] >= 128
    ensures ReadVarintFrom(bs, k) == Err(if |bs| >= MAX_BYTES - k then VarintTooLong else TruncatedVarint)
    decreases MAX_BYTES - k
  {
    if bs != [] && k < MAX_BYTES - 1 {
      ReadFromError(bs[1..], k + 1);
      forall i | 0 <= i < |bs| && i < MAX_BYTES - k ensures bs[i] >= 128 {
        assert i == 0 || bs[i] == bs[1..][i - 1];
      }
    }
  }

  /** It fails exactly when none of the first ten available bytes terminates the varint; the error
      says whether the bytes or the patience ran out. */
  lemma ReadVarintErrIff(bs: seq<byte>)
    ensures ReadVarint(bs).Err? <==> forall i :: 0 <= i < |bs| && i < MAX_BYTES ==> bs[i] >= 128
    ensures ReadVarint(bs).Err? ==>
              ReadVarint(bs) == Err(if |bs| >= MAX_BYTES then VarintTooLong else TruncatedVarint)
  {
    match ReadVarint(bs)
    case Err(_) => ReadFromError(bs, 0);
    case Ok(Read(v, n)) => ReadVarintIff(bs, v, n); assert bs[..n][n - 1] == bs[n - 1];
  }

  /** Every value read is below 2^70: ten bytes of seven bits, not the 64 of the wire format. */
  lemma {:induction false} VarintValueBound(bs: seq<byte>)
    ensures VarintValue(bs) < Pow2(7 * |bs|)
  {
    if bs != [] {
      VarintValueBound(bs[1..]);
      Pow2Add(7, 7 * |bs[1..]|);
      Pow2Of7();
    }
  }

  lemma {:induction false} Pow2Monotone(i: nat, j: nat)
    requires i <= j
    ensures Pow2(i) <= Pow2(j)
  {
    if i < j { Pow2Monotone(i, j - 1); }
  }

  lemma ReadVarintBound(bs: seq<byte>)
    requires ReadVarint(bs).Ok?
    ensures ReadVarint(bs).value.value < Pow2(70)
  {
    var Read(v, n) := ReadVarint(bs).value;
    ReadVarintIff(bs, v, n);
    VarintValueBound(bs[..n]);
    Pow2Monotone(7 * n, 70);
  }

  // ---- Round trip with the canonical encoder ----

  /** The shortest base-128 form (Protocol Buffers Encoding guide, "Base 128 Varints"). */
  function EncodeVarint(v: nat): (bs: seq<byte>)
    ensures |bs| >= 1
  {
    if v < 128 then [v] else [v % 128 + 128] + EncodeVarint(v / 128)
  }

  lemma ConsVarint(b: byte, rest: seq<byte>)
    requires b >= 128 && IsVarint(rest) && |rest| < MAX_BYTES
    ensures IsVarint([b] + rest) && VarintValue([b] + rest) == b % 128 + 128 * VarintValue(rest)
  {
    assert ([b] + rest)[1..] == rest;
  }

  lemma {:induction false} EncodeVarintIsVarint(v: nat, k: nat)
    requires v < Pow2(7 * (k + 1)) && k < MAX_BYTES
    ensures |EncodeVarint(v)| <= k + 1
    ensures IsVarint(EncodeVarint(v)) && VarintValue(EncodeVarint(v)) == v
  {
    var e := EncodeVarint(v);
    Pow2Of7();
    if v < 128 {
      assert e[1..] == [];
    } else {
      assert k > 0;
      Pow2Add(7, 7 * k);
      EncodeVarintIsVarint(v / 128, k - 1);
      ConsVarint(v % 128 + 128, EncodeVarint(v / 128));
    }
  }

  /** Reading what the encoder wrote gives the value back and stops exactly at its end, whatever
      comes after. */
  lemma VarintRoundTrip(v: nat, suffix: seq<byte>)
    requires v < Pow2(70)
    ensures ReadVarint(EncodeVarint(v) + suffix) == Ok(Read(v, |EncodeVarint(v)|))
  {
    EncodeVarintIsVarint(v, 9);
    var e := EncodeVarint(v);
    assert (e + suffix)[..|e|] == e;
    ReadVarintIff(e + suffix, v, |e|);
  }

  // ---- The Confluent message index ----

  /** Skips `count` varints. */
  function SkipVarints(bs: seq<byte>, count: nat): Result<seq<byte>, WireError> {
    if count == 0 then Ok(bs)
    else
      var r :- ReadVarint(bs);
      SkipVarints(bs[r.size..], count - 1)
  }

  function StripIndex(body: seq<byte>): Result<seq<byte>, WireError> {
    var r :- ReadVarint(body);
    SkipVarints(body[r.size..], r.value)
  }

  /** `_strip_protobuf_index` */
  method StripProtobufIndex(body: seq<byte>) returns (r: Result<seq<byte>, WireError>)
    ensures r == StripIndex(body)
  {
    var head := ReadVarintAt(body, 0);
    ReadAtIsRead(body, 0, head);
    assert body[0..] == body;
    if head.Err? {
      return Err(head.error);
    }
    var count, pos: nat := head.value.value, head.value.size;
    if count == 0 {
      return Ok(body[pos..]);
    }
    for i := 0 to count
      invariant pos <= |body|
      invariant StripIndex(body) == SkipVarints(body[pos..], count - i)
    {
      var next := ReadVarintAt(body, pos);
      ReadAtIsRead(body, pos, next);
      if next.Err? {
        return Err(next.error);
      }
      SkipOne(body, pos, next.value.size, count - i);
      pos := next.value.size;
    }
    return Ok(body[pos..]);
  }

  lemma SkipOne(body: seq<byte>, pos: nat, next: nat, count: nat)
    requires pos <= next <= |body| && count > 0
    requires ReadVarint(body[pos..]).Ok? && ReadVarint(body[pos..]).value.size == next - pos
    ensures SkipVarints(body[pos..], count) == SkipVarints(body[next..], count - 1)
  {
    DropTwice(body, pos, next);
  }

  lemma DropTwice(body: seq<byte>, pos: nat, next: nat)
    requires pos <= next <= |body|
    ensures body[pos..][next - pos..] == body[next..]
  {
  }

  function EncodeAll(indexes: seq<nat>): seq<byte> {
    if indexes == [] then [] else EncodeVarint(indexes[0]) + EncodeAll(indexes[1..])
  }

  lemma {:induction false} SkipEncoded(indexes: seq<nat>, body: seq<byte>)
    requires forall j | 0 <= j < |indexes| :: indexes[j] < Pow2(70)
    ensures SkipVarints(EncodeAll(indexes) + body, |indexes|) == Ok(body)
  {
    if indexes != [] {
      var e, rest := EncodeVarint(indexes[0]), EncodeAll(indexes[1..]) + body;
      assert EncodeAll(indexes) + body == e + rest;
      VarintRoundTrip(indexes[0], rest);
      assert (e + rest)[|e|..] == rest;
      SkipEncoded(indexes[1..], body);
    } else {
      assert EncodeAll(indexes) + body == body;
    }
  }

  lemma StripsCount(count: nat, rest: seq<byte>)
    requires count < Pow2(70)
    ensures StripIndex(EncodeVarint(count) + rest) == SkipVarints(rest, count)
  {
    var e := EncodeVarint(count);
    VarintRoundTrip(count, rest);
    assert (e + rest)[|e|..] == rest;
  }

  lemma Associate(a: seq<byte>, b: seq<byte>, c: seq<byte>)
    ensures a + b + c == a + (b + c)
  {
  }

  /** Stripping a plain-varint count and that many indexes leaves exactly the body. With no index this
      is the lone 0x00 of a single-message schema. */
  lemma StripIndexInverts(indexes: seq<nat>, body: seq<byte>)
    requires |indexes| < Pow2(70) && forall j | 0 <= j < |indexes| :: indexes[j] < Pow2(70)
    ensures StripIndex(EncodeVarint(|indexes|) + EncodeAll(indexes) + body) == Ok(body)
    ensures indexes == [] ==> EncodeVarint(|indexes|) + EncodeAll(indexes) + body == [0] + body
  {
    SkipEncoded(indexes, body);
    StripsCount(|indexes|, EncodeAll(indexes) + body);
    Associate(EncodeVarint(|indexes|), EncodeAll(indexes), body);
  }
}
