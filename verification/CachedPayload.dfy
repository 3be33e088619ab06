/** Decoding through the schema cache and the Avro schema cache gives what decoding afresh gives exactly
    as long as each id means one schema. */
module CachedPayload {
  import opened Common
  import opened Registry
  import opened Payload
  import Messages

  /** What decoding a body as Avro gives when a parsed schema may be cached under its id. */
  function AvroThrough(c: Codecs, cache: map<int, AvroSchema>, id: int, text: string, body: seq<byte>): Result<Json, string> {
    if id in cache then c.readAvro(body, cache[id]) else FreshAvro(c, text, body)
  }

  function CacheAfter(c: Codecs, cache: map<int, AvroSchema>, id: int, text: string): map<int, AvroSchema> {
    if id !in cache && c.parseAvro(text).Ok? then cache[id := c.parseAvro(text).value] else cache
  }

  /** Every parsed schema in the cache is that of the registry's schema for its id. */
  ghost predicate AvroCoherent(c: Codecs, contents: Contents, cache: map<int, AvroSchema>) {
    forall id :: id in cache ==> contents(id).Some? && c.parseAvro(contents(id).value.text) == Ok(cache[id])
  }

  class PayloadDecoder {
    const codecs: Codecs
    /** `_avro_cache` */
    var avroCache: map<int, AvroSchema>

    constructor (codecs: Codecs)
      ensures this.codecs == codecs && avroCache == map[]
    {
      this.codecs, avroCache := codecs, map[];
    }

    /** `_decode_avro` */
    method DecodeAvro(id: int, text: string, body: seq<byte>) returns (r: Result<Json, string>)
      modifies this`avroCache
      ensures r == AvroThrough(codecs, old(avroCache), id, text, body)
      ensures avroCache == CacheAfter(codecs, old(avroCache), id, text)
    {
      if id !in avroCache {
        var parsed := codecs.parseAvro(text);
        if parsed.Err? {
          return Err(parsed.error);
        }
        avroCache := avroCache[id := parsed.value];
      }
      return codecs.readAvro(body, avroCache[id]);
    }

    /** `decode`, with a client for the current cluster's registry (or none) and the answer a fetch
        would give now. */
    method Decode(raw: Option<seq<byte>>, registry: SchemaRegistry?, fetch: Option<Schema>) returns (d: Decoded)
      modifies this`avroCache, registry
      ensures registry == null ==> d == DecodeFresh(codecs, None, raw) && avroCache == old(avroCache)
      ensures raw.None? || !Framed(raw.value) ==>
                d == DecodeFresh(codecs, None, raw) && avroCache == old(avroCache) && (registry != null ==> registry.cache == old(registry.cache))
      ensures registry != null && raw.Some? && Framed(raw.value) ==>
                var id, body := IdOf(raw.value), raw.value[5..];
                var answer := if id in old(registry.cache) then old(registry.cache)[id] else fetch;
                && registry.cache == old(registry.cache)[id := answer]
                && d == (if answer.None? then Plain(raw.value)
                         else DecodeBody(codecs, answer.value, id, body, AvroThrough(codecs, old(avroCache), id, answer.value.text, body)))
                && avroCache == (if answer.Some? && answer.value.kind == "AVRO"
                                 then CacheAfter(codecs, old(avroCache), id, answer.value.text) else old(avroCache))
    {
      if raw.None? {
        return Decoded(None, false, "null", None);
      }
      var bytes := raw.value;
      if Framed(bytes) && registry != null {
        var id := IdOf(bytes);
        var schema, _ := registry.SchemaById(id, fetch);
        if schema.Some? {
          var body := bytes[5..];
          var avro: Result<Json, string> := Err("");
          if schema.value.kind == "AVRO" {
            avro := DecodeAvro(id, schema.value.text, body);
          }
          return DecodeBody(codecs, schema.value, id, body, avro);
        }
      }
      return Plain(bytes);
    }
  }

  // ---- Runs of Avro decodings, whatever registries they come from ----

  /** A body to decode as Avro under the schema text that some registry gave for its id. */
  datatype AvroCall = AvroCall(id: int, text: string, body: seq<byte>)

  /** The answers of a run through the cache, and the cache after it. */
  function AvroRun(c: Codecs, cache: map<int, AvroSchema>, calls: seq<AvroCall>): (answers: seq<Result<Json, string>>)
    decreases |calls|
  {
    if calls == [] then []
    else
      [AvroThrough(c, cache, calls[0].id, calls[0].text, calls[0].body)]
      + AvroRun(c, CacheAfter(c, cache, calls[0].id, calls[0].text), calls[1..])
  }

  function CacheAfterRun(c: Codecs, cache: map<int, AvroSchema>, calls: seq<AvroCall>): map<int, AvroSchema>
    decreases |calls|
  {
    if calls == [] then cache else CacheAfterRun(c, CacheAfter(c, cache, calls[0].id, calls[0].text), calls[1..])
  }

  function FreshRun(c: Codecs, calls: seq<AvroCall>): (answers: seq<Result<Json, string>>) {
    if calls == [] then [] else [FreshAvro(c, calls[0].text, calls[0].body)] + FreshRun(c, calls[1..])
  }

  /** Each id means one schema: an id cached before the run parses to what is cached for it, and one
      that parses during the run parses to the same from then on. Texts that do not parse count. */
  ghost predicate OneSchemaPerId(c: Codecs, cache: map<int, AvroSchema>, calls: seq<AvroCall>) {
    && (forall i :: 0 <= i < |calls| && calls[i].id in cache ==> c.parseAvro(calls[i].text) == Ok(cache[calls[i].id]))
    && forall i, j :: 0 <= i < j < |calls| && calls[i].id == calls[j].id && c.parseAvro(calls[i].text).Ok? ==>
         c.parseAvro(calls[j].text) == c.parseAvro(calls[i].text)
  }

  /** The first call of a run: what is cached for its id, if anything, is what its text parses to. */
  predicate HeadAgrees(c: Codecs, cache: map<int, AvroSchema>, call: AvroCall) {
    call.id in cache ==> c.parseAvro(call.text) == Ok(cache[call.id])
  }

  lemma OneSchemaHead(c: Codecs, cache: map<int, AvroSchema>, calls: seq<AvroCall>)
    requires calls != [] && OneSchemaPerId(c, cache, calls)
    ensures HeadAgrees(c, cache, calls[0])
    ensures OneSchemaPerId(c, CacheAfter(c, cache, calls[0].id, calls[0].text), calls[1..])
  {
    var rest, after := calls[1..], CacheAfter(c, cache, calls[0].id, calls[0].text);
    forall i | 0 <= i < |rest| && rest[i].id in after ensures c.parseAvro(rest[i].text) == Ok(after[rest[i].id]) {
      assert rest[i] == calls[i + 1];
    }
    forall i, j | 0 <= i < j < |rest| && rest[i].id == rest[j].id && c.parseAvro(rest[i].text).Ok?
      ensures c.parseAvro(rest[j].text) == c.parseAvro(rest[i].text)
    {
      assert rest[i] == calls[i + 1] && rest[j] == calls[j + 1];
    }
  }

  lemma OneSchemaCons(c: Codecs, cache: map<int, AvroSchema>, calls: seq<AvroCall>)
    requires calls != [] && HeadAgrees(c, cache, calls[0])
    requires OneSchemaPerId(c, CacheAfter(c, cache, calls[0].id, calls[0].text), calls[1..])
    ensures OneSchemaPerId(c, cache, calls)
  {
    var rest, after := calls[1..], CacheAfter(c, cache, calls[0].id, calls[0].text);
    forall i | 0 <= i < |calls| && calls[i].id in cache ensures c.parseAvro(calls[i].text) == Ok(cache[calls[i].id]) {
      assert i > 0 ==> calls[i] == rest[i - 1];
    }
    forall i, j | 0 <= i < j < |calls| && calls[i].id == calls[j].id && c.parseAvro(calls[i].text).Ok?
      ensures c.parseAvro(calls[j].text) == c.parseAvro(calls[i].text)
    {
      assert calls[j] == rest[j - 1];
      assert i > 0 ==> calls[i] == rest[i - 1];
    }
  }

  lemma {:induction false} OneSchemaRunsFresh(c: Codecs, cache: map<int, AvroSchema>, calls: seq<AvroCall>)
    requires OneSchemaPerId(c, cache, calls)
    ensures AvroRun(c, cache, calls) == FreshRun(c, calls)
    decreases |calls|
  {
    if calls != [] {
      OneSchemaHead(c, cache, calls);
      OneSchemaRunsFresh(c, CacheAfter(c, cache, calls[0].id, calls[0].text), calls[1..]);
    }
  }

  /** A reader that tells its schema. */
  function Naming(): (seq<byte>, AvroSchema) -> Result<Json, string> {
    (body: seq<byte>, schema: AvroSchema) => Ok(Messages.JString(schema.repr))
  }

  lemma {:induction false} FreshRunsOneSchema(c: Codecs, cache: map<int, AvroSchema>, calls: seq<AvroCall>)
    requires c.readAvro == Naming() && AvroRun(c, cache, calls) == FreshRun(c, calls)
    ensures OneSchemaPerId(c, cache, calls)
    decreases |calls|
  {
    if calls != [] {
      var call, after := calls[0], CacheAfter(c, cache, calls[0].id, calls[0].text);
      assert AvroRun(c, cache, calls)[0] == FreshRun(c, calls)[0];
      assert AvroRun(c, cache, calls)[1..] == AvroRun(c, after, calls[1..]);
      assert FreshRun(c, calls)[1..] == FreshRun(c, calls[1..]);
      FreshRunsOneSchema(c, after, calls[1..]);
      assert call.id in cache ==> Naming()(call.body, cache[call.id]) == Ok(Messages.JString(cache[call.id].repr));
      assert HeadAgrees(c, cache, call) by {
        if call.id in cache && c.parseAvro(call.text).Ok? {
          assert FreshAvro(c, call.text, call.body) == Ok(Messages.JString(c.parseAvro(call.text).value.repr));
        }
      }
      OneSchemaCons(c, cache, calls);
    }
  }

  /** The Avro cache is keyed by id alone. Over any run of decodings, from any cache, every answer
      through the cache is the one a fresh decoding gives, whatever the Avro reader makes of bodies
      and schemas, if and only if each id means one schema throughout. */
  lemma CachedAvroRightIff(c: Codecs, cache: map<int, AvroSchema>, calls: seq<AvroCall>)
    ensures (forall read: (seq<byte>, AvroSchema) -> Result<Json, string> ::
               AvroRun(c.(readAvro := read), cache, calls) == FreshRun(c.(readAvro := read), calls))
       <==> OneSchemaPerId(c, cache, calls)
  {
    if OneSchemaPerId(c, cache, calls) {
      forall read: (seq<byte>, AvroSchema) -> Result<Json, string>
        ensures AvroRun(c.(readAvro := read), cache, calls) == FreshRun(c.(readAvro := read), calls)
      {
        OneSchemaRunsFresh(c.(readAvro := read), cache, calls);
      }
    } else if AvroRun(c.(readAvro := Naming()), cache, calls) == FreshRun(c.(readAvro := Naming()), calls) {
      FreshRunsOneSchema(c.(readAvro := Naming()), cache, calls);
    }
  }

  /** The decoder answers such a run as specified. */
  method AnswerAll(decoder: PayloadDecoder, calls: seq<AvroCall>) returns (answers: seq<Result<Json, string>>)
    modifies decoder
    ensures answers == AvroRun(decoder.codecs, old(decoder.avroCache), calls)
    ensures decoder.avroCache == CacheAfterRun(decoder.codecs, old(decoder.avroCache), calls)
  {
    answers := [];
    for k := 0 to |calls|
      invariant AvroRun(decoder.codecs, old(decoder.avroCache), calls)
             == answers + AvroRun(decoder.codecs, decoder.avroCache, calls[k..])
      invariant CacheAfterRun(decoder.codecs, old(decoder.avroCache), calls)
             == CacheAfterRun(decoder.codecs, decoder.avroCache, calls[k..])
    {
      assert calls[k..][0] == calls[k] && calls[k..][1..] == calls[k + 1..];
      var answer := decoder.DecodeAvro(calls[k].id, calls[k].text, calls[k].body);
      answers := answers + [answer];
    }
  }

  // ---- Runs of payloads ----

  /** A payload to show, the client of the registry of the cluster it comes from (null when that
      cluster has none), and what that registry holds. */
  datatype Request = Request(client: SchemaRegistry?, contents: Contents, raw: Option<seq<byte>>) {
    function Registry(): Option<Contents> {
      if client == null then None else Some(contents)
    }
    function AvroCalls(): seq<AvroCall> {
      if client != null && raw.Some? && Framed(raw.value) && contents(IdOf(raw.value)).Some?
         && contents(IdOf(raw.value)).value.kind == "AVRO"
      then [AvroCall(IdOf(raw.value), contents(IdOf(raw.value)).value.text, raw.value[5..])]
      else []
    }
  }

  /** The Avro decodings a run of payloads needs. */
  function AllAvroCalls(requests: seq<Request>): seq<AvroCall> {
    if requests == [] then [] else requests[0].AvroCalls() + AllAvroCalls(requests[1..])
  }

  /** The schema cache holds the registry's own answers. */
  ghost predicate SchemaCoherent(contents: Contents, cache: map<int, Option<Schema>>) {
    forall id :: id in cache ==> cache[id] == contents(id)
  }

  /** The clients of a run of payloads. */
  ghost function Clients(requests: seq<Request>): set<SchemaRegistry> {
    set i | 0 <= i < |requests| && requests[i].client != null :: requests[i].client
  }

  /** Every client's cache holds the answers of the registry behind it. */
  ghost predicate AllCoherent(requests: seq<Request>)
    reads Clients(requests)
  {
    forall i :: 0 <= i < |requests| && requests[i].client != null ==>
      SchemaCoherent(requests[i].contents, requests[i].client.cache)
  }

  /** One client is behind one registry. */
  ghost predicate OneContentsPerClient(requests: seq<Request>) {
    forall i, j :: 0 <= i < |requests| && 0 <= j < |requests| && requests[i].client == requests[j].client != null ==>
      requests[i].contents == requests[j].contents
  }

  /** What decoding each payload afresh against its own registry shows. */
  function AllFresh(c: Codecs, requests: seq<Request>): (shown: seq<Decoded>)
    ensures |shown| == |requests|
    ensures forall i :: 0 <= i < |requests| ==> shown[i] == DecodeFresh(c, requests[i].Registry(), requests[i].raw)
  {
    if requests == [] then []
    else [DecodeFresh(c, requests[0].Registry(), requests[0].raw)] + AllFresh(c, requests[1..])
  }

  /** Any number of payloads shown one after the other, from clusters with any registries whose lookups
      succeed: as long as each id means one Avro schema throughout, going through all the caches shows
      exactly what decoding each payload afresh against its own registry would show. */
  method DecodeAll(decoder: PayloadDecoder, requests: seq<Request>) returns (shown: seq<Decoded>)
    requires AllCoherent(requests) && OneContentsPerClient(requests)
    requires OneSchemaPerId(decoder.codecs, decoder.avroCache, AllAvroCalls(requests))
    modifies decoder, Clients(requests)
    ensures shown == AllFresh(decoder.codecs, requests)
    ensures decoder.avroCache == CacheAfterRun(decoder.codecs, old(decoder.avroCache), AllAvroCalls(requests))
    ensures AllCoherent(requests)
  {
    assert requests[0..] == requests;
    shown := DecodeFrom(decoder, requests, 0);
  }

  method DecodeFrom(decoder: PayloadDecoder, requests: seq<Request>, k: nat) returns (shown: seq<Decoded>)
    requires k <= |requests| && AllCoherent(requests) && OneContentsPerClient(requests)
    requires OneSchemaPerId(decoder.codecs, decoder.avroCache, AllAvroCalls(requests[k..]))
    modifies decoder, Clients(requests)
    ensures shown == AllFresh(decoder.codecs, requests[k..])
    ensures decoder.avroCache == CacheAfterRun(decoder.codecs, old(decoder.avroCache), AllAvroCalls(requests[k..]))
    ensures AllCoherent(requests)
    decreases |requests| - k
  {
    if k == |requests| {
      return [];
    }
    assert requests[k..][0] == requests[k] && requests[k..][1..] == requests[k + 1..];
    var first := ShowOne(decoder, requests, k, AllAvroCalls(requests[k + 1..]));
    var rest := DecodeFrom(decoder, requests, k + 1);
    return [first] + rest;
  }

  /** Shows one payload of a run, leaving the caches right for the later ones. */
  method ShowOne(decoder: PayloadDecoder, requests: seq<Request>, k: nat, ghost later: seq<AvroCall>) returns (d: Decoded)
    requires k < |requests| && AllCoherent(requests) && OneContentsPerClient(requests)
    requires OneSchemaPerId(decoder.codecs, decoder.avroCache, requests[k].AvroCalls() + later)
    modifies decoder, Clients(requests)
    ensures d == DecodeFresh(decoder.codecs, requests[k].Registry(), requests[k].raw)
    ensures OneSchemaPerId(decoder.codecs, decoder.avroCache, later)
    ensures CacheAfterRun(decoder.codecs, old(decoder.avroCache), requests[k].AvroCalls() + later)
         == CacheAfterRun(decoder.codecs, decoder.avroCache, later)
    ensures AllCoherent(requests)
  {
    d := ShowNext(decoder, requests[k], later);
    forall i | 0 <= i < |requests| && requests[i].client != null
      ensures SchemaCoherent(requests[i].contents, requests[i].client.cache)
    {
      assert requests[i].client == requests[k].client ==> requests[i].contents == requests[k].contents;
    }
  }

  method ShowNext(decoder: PayloadDecoder, request: Request, ghost later: seq<AvroCall>) returns (d: Decoded)
    requires request.client != null ==> SchemaCoherent(request.contents, request.client.cache)
    requires OneSchemaPerId(decoder.codecs, decoder.avroCache, request.AvroCalls() + later)
    modifies decoder, request.client
    ensures d == DecodeFresh(decoder.codecs, request.Registry(), request.raw)
    ensures OneSchemaPerId(decoder.codecs, decoder.avroCache, later)
    ensures CacheAfterRun(decoder.codecs, old(decoder.avroCache), request.AvroCalls() + later)
         == CacheAfterRun(decoder.codecs, decoder.avroCache, later)
    ensures request.client != null ==> SchemaCoherent(request.contents, request.client.cache)
  {
    var fetch := if request.raw.Some? && Framed(request.raw.value) then request.contents(IdOf(request.raw.value)) else None;
    if request.AvroCalls() != [] {
      OneSchemaHead(decoder.codecs, decoder.avroCache, request.AvroCalls() + later);
      assert (request.AvroCalls() + later)[1..] == later;
    } else {
      assert request.AvroCalls() + later == later;
    }
    d := decoder.Decode(request.raw, request.client, fetch);
  }

  /** Against one registry each id means one schema, if that is so for what is cached already, and it
      stays so. */
  lemma OneRegistryOneSchema(c: Codecs, cache: map<int, AvroSchema>, contents: Contents, requests: seq<Request>)
    requires AvroCoherent(c, contents, cache)
    requires forall i :: 0 <= i < |requests| && requests[i].client != null ==> requests[i].contents == contents
    ensures OneSchemaPerId(c, cache, AllAvroCalls(requests))
    ensures AvroCoherent(c, contents, CacheAfterRun(c, cache, AllAvroCalls(requests)))
  {
    CallsOfRegistry(contents, requests);
    StaysCoherent(c, cache, contents, AllAvroCalls(requests));
  }

  lemma {:induction false} StaysCoherent(c: Codecs, cache: map<int, AvroSchema>, contents: Contents, calls: seq<AvroCall>)
    requires AvroCoherent(c, contents, cache)
    requires forall i :: 0 <= i < |calls| ==> contents(calls[i].id).Some? && contents(calls[i].id).value.text == calls[i].text
    ensures AvroCoherent(c, contents, CacheAfterRun(c, cache, calls))
    decreases |calls|
  {
    if calls != [] {
      assert AvroCoherent(c, contents, CacheAfter(c, cache, calls[0].id, calls[0].text));
      StaysCoherent(c, CacheAfter(c, cache, calls[0].id, calls[0].text), contents, calls[1..]);
    }
  }

  lemma {:induction false} CallsOfRegistry(contents: Contents, requests: seq<Request>)
    requires forall i :: 0 <= i < |requests| && requests[i].client != null ==> requests[i].contents == contents
    ensures forall i :: 0 <= i < |AllAvroCalls(requests)| ==>
              var call := AllAvroCalls(requests)[i];
              contents(call.id).Some? && contents(call.id).value.text == call.text
  {
    if requests != [] {
      CallsOfRegistry(contents, requests[1..]);
    }
  }

  // ---- Why one schema per id ----

  lemma ShownApart(c: Codecs, schema: Schema, id: int, body: seq<byte>, read: Json, other: Result<Json, string>)
    requires schema.kind == "AVRO"
    ensures DecodeBody(c, schema, id, body, Ok(read)) == DecodeBody(c, schema, id, body, other)
       <==> Dumped(c, Ok(read)) == Dumped(c, other)
  {
    assert "avro" != "binary" by {
      assert |"avro"| != |"binary"|;
    }
  }

  /** Two clusters whose registries use one id for different schemas. The first payload is shown
      rightly; the same bytes from the second cluster are then read with the first one's schema, and
      shown rightly if and only if a fresh reading happens to give the same text. In particular they
      are shown as if they decoded when the second schema does not even parse. */
  method TwoRegistries(codecs: Codecs, id: nat, one: Schema, two: Schema, body: seq<byte>)
    returns (first: Decoded, second: Decoded)
    requires id < 0x1_0000_0000 && one.kind == two.kind == "AVRO"
    requires codecs.parseAvro(one.text).Ok? && codecs.readAvro(body, codecs.parseAvro(one.text).value).Ok?
    ensures first == DecodeFresh(codecs, Some((i: int) => Some(one)), Some(Header(id) + body))
    ensures second == DecodeFresh(codecs, Some((i: int) => Some(two)), Some(Header(id) + body))
       <==> Dumped(codecs, FreshAvro(codecs, two.text, body)) == Dumped(codecs, FreshAvro(codecs, one.text, body))
    ensures codecs.parseAvro(two.text).Err? ==>
              second != DecodeFresh(codecs, Some((i: int) => Some(two)), Some(Header(id) + body))
  {
    HeaderParts(id, body);
    var decoder := new PayloadDecoder(codecs);
    var clientOne := new SchemaRegistry("one", "");
    var clientTwo := new SchemaRegistry("two", "");
    first := decoder.Decode(Some(Header(id) + body), clientOne, Some(one));
    second := decoder.Decode(Some(Header(id) + body), clientTwo, Some(two));
    ShownApart(codecs, two, id, body, FreshAvro(codecs, one.text, body).value, FreshAvro(codecs, two.text, body));
  }
}
