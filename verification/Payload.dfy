/** Decoding one key or value for display (app/services/decode.py), the registry framing and its
    inverse (app/services/encode.py), and the Avro schema cache. */
module Payload {
  import opened Common
  import opened Varint
  import opened Wire
  import opened WireRoundTrip
  import opened Bits
  import opened Registry
  import Messages
  import Utf8
  import Base64

  type Json = Messages.Json

  datatype Decoded = Decoded(text: Option<string>, binary: bool, encoding: string, schemaId: Option<int>)

  /** A parsed Avro schema, as fastavro represents it. */
  datatype AvroSchema = AvroSchema(repr: string)

  /** The libraries behind the codecs; a failed result carries the exception's message. */
  datatype Codecs = Codecs(
    parseAvro: string -> Result<AvroSchema, string>,
    readAvro: (seq<byte>, AvroSchema) -> Result<Json, string>,
    writeAvro: (Json, AvroSchema) -> Result<seq<byte>, string>,
    loads: string -> Result<Json, string>,
    loadsBytes: seq<byte> -> Result<Json, string>,
    dumps: Json -> string,
    dumpsWire: PyVal -> string,
    printable: string -> bool,
    lower: string -> string,
    describe: WireError -> string)

  // ---- The header ----

  function BigEndian(bs: seq<byte>): nat {
    if bs == [] then 0 else BigEndian(bs[..|bs| - 1]) * 256 + bs[|bs| - 1]
  }

  function ToBigEndian(n: nat, size: nat): (bs: seq<byte>)
    ensures |bs| == size
  {
    if size == 0 then [] else ToBigEndian(n / 256, size - 1) + [n % 256]
  }

  /** `_header`, for the ids that fit four bytes */
  function Header(id: nat): (bs: seq<byte>)
    ensures |bs| == 5
  {
    [0] + ToBigEndian(id, 4)
  }

  lemma BigEndianInverts(n: nat)
    requires n < 0x1_0000_0000
    ensures BigEndian(ToBigEndian(n, 4)) == n
  {
    BigEndianStep(n, 3);
    BigEndianStep(n / 256, 2);
    BigEndianStep(n / 256 / 256, 1);
    BigEndianStep(n / 256 / 256 / 256, 0);
    assert ToBigEndian(n / 256 / 256 / 256 / 256, 0) == [];
  }

  lemma BigEndianStep(n: nat, size: nat)
    ensures BigEndian(ToBigEndian(n, size + 1)) == BigEndian(ToBigEndian(n / 256, size)) * 256 + n % 256
  {
    var bs := ToBigEndian(n, size + 1);
    assert bs[..|bs| - 1] == ToBigEndian(n / 256, size);
  }

  /** The header byte by byte: a zero, then the id with its highest byte first. */
  lemma HeaderBytes(id: nat)
    ensures Header(id) == [0, id / 0x100_0000 % 256, id / 0x1_0000 % 256, id / 0x100 % 256, id % 256]
  {
    assert ToBigEndian(id / 0x100_0000, 1) == ToBigEndian(id / 0x100_0000 / 256, 0) + [id / 0x100_0000 % 256];
    assert id / 256 / 256 == id / 0x1_0000 && id / 0x1_0000 / 256 == id / 0x100_0000;
    assert ToBigEndian(id / 0x1_0000, 2) == ToBigEndian(id / 0x100_0000, 1) + [id / 0x1_0000 % 256];
    assert ToBigEndian(id / 0x100, 3) == ToBigEndian(id / 0x1_0000, 2) + [id / 0x100 % 256];
  }

  lemma {:induction false} ToBigEndianInverts(bs: seq<byte>)
    ensures ToBigEndian(BigEndian(bs), |bs|) == bs
  {
    if bs != [] {
      ToBigEndianInverts(bs[..|bs| - 1]);
      assert bs == bs[..|bs| - 1] + [bs[|bs| - 1]];
    }
  }

  lemma {:induction false} BigEndianBound(bs: seq<byte>)
    ensures |bs| == 4 ==> BigEndian(bs) < 0x1_0000_0000
  {
    if |bs| == 4 {
      var a, b := bs[..3], bs[..2];
      assert a[..2] == b && b[..1] == bs[..1] && bs[..1][..0] == [];
      assert BigEndian(bs[..1]) == bs[0];
      assert BigEndian(b) == BigEndian(bs[..1]) * 256 + bs[1];
      assert BigEndian(a) == BigEndian(b) * 256 + bs[2];
    }
  }

  // ---- Decoding without caches ----

  function FreshAvro(c: Codecs, text: string, body: seq<byte>): Result<Json, string> {
    var schema :- c.parseAvro(text);
    c.readAvro(body, schema)
  }

  function DecodeWire(c: Codecs, body: seq<byte>): Result<string, string> {
    match StripIndex(body)
    case Err(e) => Err(c.describe(e))
    case Ok(message) =>
      match DecodeProtobuf(message, c.printable)
      case Err(e) => Err(c.describe(e))
      case Ok(d) => Ok(c.dumpsWire(PDict(d)))
  }

  /** The text and the encoding of a body under its schema, given what Avro decoding would say. */
  function DecodeBody(c: Codecs, schema: Schema, id: int, body: seq<byte>, avro: Result<Json, string>): Decoded {
    if schema.kind == "AVRO" then Shown(c, schema, id, "avro", Dumped(c, avro))
    else if schema.kind == "JSON" then Shown(c, schema, id, "json-schema", Dumped(c, c.loadsBytes(body)))
    else if schema.kind == "PROTOBUF" then Shown(c, schema, id, "protobuf", DecodeWire(c, body))
    else Decoded(Some(Base64.Encode(body)), true, "binary", Some(id))
  }

  function Dumped(c: Codecs, r: Result<Json, string>): Result<string, string> {
    match r
    case Ok(v) => Ok(c.dumps(v))
    case Err(e) => Err(e)
  }

  /** A decoded body, or the note that it did not decode against the schema its header named. */
  function Shown(c: Codecs, schema: Schema, id: int, encoding: string, r: Result<string, string>): Decoded {
    match r
    case Ok(text) => Decoded(Some(text), false, encoding, Some(id))
    case Err(e) => Decoded(Some("<" + c.lower(schema.kind) + " decode failed: " + e + ">"), false, "binary", Some(id))
  }

  /** UTF-8 text as it is, anything else as base64. */
  function Plain(raw: seq<byte>): Decoded {
    match Utf8.Decode(raw)
    case Some(text) => Decoded(Some(text), false, "string", None)
    case None => Decoded(Some(Base64.Encode(raw)), true, "binary", None)
  }

  predicate Framed(raw: seq<byte>) {
    |raw| >= 5 && raw[0] == 0
  }

  function IdOf(raw: seq<byte>): nat
    requires Framed(raw)
  {
    BigEndian(raw[1..5])
  }

  /** `decode`, against a registry with the given contents (or none), nothing cached. */
  function DecodeFresh(c: Codecs, registry: Option<Contents>, raw: Option<seq<byte>>): Decoded {
    match raw
    case None => Decoded(None, false, "null", None)
    case Some(bs) =>
      if Framed(bs) && registry.Some? && registry.value(IdOf(bs)).Some? then
        var schema := registry.value(IdOf(bs)).value;
        DecodeBody(c, schema, IdOf(bs), bs[5..], FreshAvro(c, schema.text, bs[5..]))
      else Plain(bs)
  }

  // ---- Plain payloads lose nothing ----

  /** The bytes behind what is shown. */
  function Recover(d: Decoded): Option<seq<byte>> {
    match d.text
    case None => None
    case Some(text) => if d.binary then Base64.Decode(text) else Some(Utf8.Encode(text))
  }

  /** Without a registry every payload can be recovered from its display, and it is shown as text
      exactly when it is the UTF-8 encoding of a text. */
  lemma PlainDisplayIsLossless(c: Codecs, raw: Option<seq<byte>>)
    ensures var d := DecodeFresh(c, None, raw);
            && Recover(d) == raw
            && (raw.None? <==> d.encoding == "null")
            && (raw.Some? ==> (d.encoding == "string" <==> exists text :: Utf8.Encode(text) == raw.value))
            && (raw.Some? ==> (d.binary <==> d.encoding == "binary") && (d.binary <==> d.encoding != "string"))
  {
    if raw.Some? {
      Base64.RoundTrip(raw.value);
      match Utf8.Decode(raw.value)
      case Some(text) => Utf8.DecodeIff(raw.value, text);
      case None =>
        if exists text :: Utf8.Encode(text) == raw.value {
          var text :| Utf8.Encode(text) == raw.value;
          Utf8.DecodeIff(raw.value, text);
        }
        assert "binary" != "string";
    }
  }

  // ---- Framing round trips ----

  datatype EncodeError = NotJson(text: string) | SchemaInvalid(text: string) | ValueMismatch(text: string)

  /** `encode_json_schema` */
  function EncodeJsonSchema(c: Codecs, id: nat, jsonText: string): Result<seq<byte>, EncodeError> {
    match c.loads(jsonText)
    case Err(e) => Err(NotJson(e))
    case Ok(v) => Ok(Header(id) + Utf8.Encode(c.dumps(v)))
  }

  /** `encode_avro` */
  function EncodeAvro(c: Codecs, schemaText: string, id: nat, jsonText: string): Result<seq<byte>, EncodeError> {
    match c.loads(jsonText)
    case Err(e) => Err(NotJson(e))
    case Ok(v) =>
      match c.parseAvro(schemaText)
      case Err(e) => Err(SchemaInvalid(e))
      case Ok(schema) =>
        match c.writeAvro(v, schema)
        case Err(e) => Err(ValueMismatch(e))
        case Ok(body) => Ok(Header(id) + body)
  }

  /** The JSON library reads back what it wrote, from text and from its UTF-8 bytes. */
  ghost predicate JsonInverts(c: Codecs, v: Json) {
    c.loads(c.dumps(v)) == Ok(v) && c.loadsBytes(Utf8.Encode(c.dumps(v))) == Ok(v)
  }

  /** The Avro library reads back what it wrote. */
  ghost predicate AvroInverts(c: Codecs, v: Json, schema: AvroSchema) {
    c.writeAvro(v, schema).Ok? ==> c.readAvro(c.writeAvro(v, schema).value, schema) == Ok(v)
  }

  lemma HeaderParts(id: nat, body: seq<byte>)
    requires id < 0x1_0000_0000
    ensures Framed(Header(id) + body) && IdOf(Header(id) + body) == id && (Header(id) + body)[5..] == body
  {
    BigEndianInverts(id);
    assert (Header(id) + body)[1..5] == ToBigEndian(id, 4);
  }

  /** With a registry, a payload is shown under a schema id exactly when it begins with that id's header
      and the registry has the schema; any other payload is shown as it is without a registry. */
  lemma SchemaIdIff(c: Codecs, contents: Contents, raw: seq<byte>, id: nat)
    requires id < 0x1_0000_0000
    ensures var d := DecodeFresh(c, Some(contents), Some(raw));
            && (d.schemaId == Some(id) <==> Header(id) <= raw && contents(id).Some?)
            && (d.schemaId.None? ==> d == DecodeFresh(c, None, Some(raw)))
  {
    if Header(id) <= raw {
      HeaderParts(id, raw[5..]);
      assert Header(id) + raw[5..] == raw;
    }
    if Framed(raw) {
      ToBigEndianInverts(raw[1..5]);
      assert Header(IdOf(raw)) == raw[..5];
    }
  }

  /** A payload whose schema is known but whose body does not decode against it says so, keeps its
      schema id and is never shown under the schema's encoding. */
  lemma FailureIsSaid(c: Codecs, contents: Contents, id: nat, body: seq<byte>, error: string)
    requires id < 0x1_0000_0000 && contents(id).Some?
    requires var schema := contents(id).value;
             || (schema.kind == "AVRO" && c.parseAvro(schema.text) == Err(error))
             || (schema.kind == "AVRO" && c.parseAvro(schema.text).Ok? && c.readAvro(body, c.parseAvro(schema.text).value) == Err(error))
             || (schema.kind == "JSON" && c.loadsBytes(body) == Err(error))
             || (schema.kind == "PROTOBUF" && StripIndex(body).Err? && c.describe(StripIndex(body).error) == error)
             || (schema.kind == "PROTOBUF" && StripIndex(body).Ok? && DecodeProtobuf(StripIndex(body).value, c.printable).Err?
                 && c.describe(DecodeProtobuf(StripIndex(body).value, c.printable).error) == error)
    ensures DecodeFresh(c, Some(contents), Some(Header(id) + body))
         == Decoded(Some("<" + c.lower(contents(id).value.kind) + " decode failed: " + error + ">"), false, "binary", Some(id))
  {
    HeaderParts(id, body);
  }

  /** The body under a schema of a kind the decoder does not know is recovered from its display. */
  lemma UnknownKindIsLossless(c: Codecs, contents: Contents, id: nat, body: seq<byte>)
    requires id < 0x1_0000_0000 && contents(id).Some? && contents(id).value.kind !in {"AVRO", "JSON", "PROTOBUF"}
    ensures var d := DecodeFresh(c, Some(contents), Some(Header(id) + body));
            d.binary && d.encoding == "binary" && d.schemaId == Some(id) && Recover(d) == Some(body)
  {
    HeaderParts(id, body);
    Base64.RoundTrip(body);
  }

  /** What a producer encoded against a JSON schema, a consumer is shown under the same id, as text
      with the same JSON value. */
  lemma JsonFramingRoundTrip(c: Codecs, contents: Contents, id: nat, jsonText: string, value: Json)
    requires id < 0x1_0000_0000 && contents(id).Some? && contents(id).value.kind == "JSON"
    requires c.loads(jsonText) == Ok(value) && JsonInverts(c, value)
    ensures EncodeJsonSchema(c, id, jsonText).Ok?
    ensures var d := DecodeFresh(c, Some(contents), Some(EncodeJsonSchema(c, id, jsonText).value));
            && d.encoding == "json-schema" && !d.binary && d.schemaId == Some(id)
            && d.text.Some? && c.loads(d.text.value) == c.loads(jsonText)
  {
    HeaderParts(id, Utf8.Encode(c.dumps(value)));
  }

  /** The same for Avro. */
  lemma AvroFramingRoundTrip(c: Codecs, contents: Contents, id: nat, jsonText: string, value: Json, schema: AvroSchema)
    requires id < 0x1_0000_0000 && contents(id).Some? && contents(id).value.kind == "AVRO"
    requires c.loads(jsonText) == Ok(value) && JsonInverts(c, value)
    requires c.parseAvro(contents(id).value.text) == Ok(schema) && AvroInverts(c, value, schema)
    requires EncodeAvro(c, contents(id).value.text, id, jsonText).Ok?
    ensures var d := DecodeFresh(c, Some(contents), Some(EncodeAvro(c, contents(id).value.text, id, jsonText).value));
            && d.encoding == "avro" && !d.binary && d.schemaId == Some(id)
            && d.text.Some? && c.loads(d.text.value) == c.loads(jsonText)
  {
    HeaderParts(id, c.writeAvro(value, schema).value);
  }

  /** The JSON text of a walked message tells it: different values are written differently. */
  ghost predicate WireDumpsTell(c: Codecs) {
    forall v, w :: c.dumpsWire(v) == c.dumpsWire(w) ==> v == w
  }

  lemma ProtobufBody(c: Codecs, contents: Contents, id: nat, body: seq<byte>)
    requires id < 0x1_0000_0000 && contents(id).Some? && contents(id).value.kind == "PROTOBUF"
    ensures DecodeFresh(c, Some(contents), Some(Header(id) + body))
         == Shown(c, contents(id).value, id, "protobuf", DecodeWire(c, body))
  {
    HeaderParts(id, body);
  }

  lemma WireBehindIndex(c: Codecs, indexes: seq<nat>, message: seq<byte>)
    requires |indexes| < Pow2(70) && forall j | 0 <= j < |indexes| :: indexes[j] < Pow2(70)
    ensures DecodeWire(c, EncodeVarint(|indexes|) + EncodeAll(indexes) + message)
         == match DecodeProtobuf(message, c.printable)
            case Ok(d) => Ok(c.dumpsWire(PDict(d)))
            case Err(e) => Err(c.describe(e))
  {
    StripIndexInverts(indexes, message);
  }

  /** A message behind its header and its index (a plain-varint count and that many indexes) is shown
      as the walk of its bytes, or with the walk's error. */
  lemma ProtobufFraming(c: Codecs, contents: Contents, id: nat, indexes: seq<nat>, message: seq<byte>)
    requires id < 0x1_0000_0000 && contents(id).Some? && contents(id).value.kind == "PROTOBUF"
    requires |indexes| < Pow2(70) && forall j | 0 <= j < |indexes| :: indexes[j] < Pow2(70)
    ensures DecodeFresh(c, Some(contents), Some(Header(id) + (EncodeVarint(|indexes|) + EncodeAll(indexes) + message)))
         == match DecodeProtobuf(message, c.printable)
            case Ok(d) => Decoded(Some(c.dumpsWire(PDict(d))), false, "protobuf", Some(id))
            case Err(e) => Shown(c, contents(id).value, id, "protobuf", Err(c.describe(e)))
  {
    ProtobufBody(c, contents, id, EncodeVarint(|indexes|) + EncodeAll(indexes) + message);
    WireBehindIndex(c, indexes, message);
  }

  /** So a tree of fields encoded under a Protobuf schema is shown as that tree, repeated fields
      grouped, if and only if the classifier's guesses are right for every field in it. */
  lemma ProtobufFramingRoundTripIff(c: Codecs, contents: Contents, id: nat, indexes: seq<nat>, fields: seq<Node>)
    requires id < 0x1_0000_0000 && contents(id).Some? && contents(id).value.kind == "PROTOBUF"
    requires |indexes| < Pow2(70) && forall j | 0 <= j < |indexes| :: indexes[j] < Pow2(70)
    requires AllInRange(fields) && WireDumpsTell(c)
    ensures DecodeFresh(c, Some(contents), Some(Header(id) + (EncodeVarint(|indexes|) + EncodeAll(indexes) + EncodeMessage(fields))))
         == Decoded(Some(c.dumpsWire(PDict(Group(AllMeant(fields))))), false, "protobuf", Some(id))
       <==> AllReadable(fields, c.printable)
  {
    ProtobufFraming(c, contents, id, indexes, EncodeMessage(fields));
    RoundTripIff(fields, c.printable);
  }

  /** `_encode_field` for a subject whose latest schema is reused: Avro by its schema, anything else as
      JSON; it returns the bytes and the encoding it names. */
  function EncodeField(c: Codecs, latest: Schema, jsonText: string): Result<(seq<byte>, string), EncodeError>
    requires latest.id >= 0
  {
    if latest.kind == "AVRO" then
      match EncodeAvro(c, latest.text, latest.id, jsonText)
      case Err(e) => Err(e)
      case Ok(bytes) => Ok((bytes, "avro"))
    else
      match EncodeJsonSchema(c, latest.id, jsonText)
      case Err(e) => Err(e)
      case Ok(bytes) => Ok((bytes, "json-schema"))
  }

  /** A field is encoded exactly when its text is JSON and, for an Avro schema, the schema parses and the
      value fits it; it is then written under the schema's id. */
  lemma EncodeFieldIff(c: Codecs, latest: Schema, jsonText: string)
    requires latest.id >= 0
    ensures EncodeField(c, latest, jsonText).Ok? <==>
              && c.loads(jsonText).Ok?
              && (latest.kind == "AVRO" ==>
                    && c.parseAvro(latest.text).Ok?
                    && c.writeAvro(c.loads(jsonText).value, c.parseAvro(latest.text).value).Ok?)
    ensures match EncodeField(c, latest, jsonText)
            case Ok((bytes, named)) =>
              var v := c.loads(jsonText).value;
              && Header(latest.id) <= bytes
              && named == (if latest.kind == "AVRO" then "avro" else "json-schema")
              && (if latest.kind == "AVRO" then c.writeAvro(v, c.parseAvro(latest.text).value) == Ok(bytes[5..])
                  else bytes[5..] == Utf8.Encode(c.dumps(v)))
            case Err(NotJson(e)) => c.loads(jsonText) == Err(e)
            case Err(SchemaInvalid(e)) => c.loads(jsonText).Ok? && latest.kind == "AVRO" && c.parseAvro(latest.text) == Err(e)
            case Err(ValueMismatch(e)) =>
              && c.loads(jsonText).Ok? && latest.kind == "AVRO" && c.parseAvro(latest.text).Ok?
              && c.writeAvro(c.loads(jsonText).value, c.parseAvro(latest.text).value) == Err(e)
  {
  }

  /** The encoding named when producing is the one shown when consuming if and only if the subject's
      schema is Avro or JSON: for any other kind (Protobuf among them) the field is written as JSON
      under an id that says otherwise. */
  lemma EncodingNamedIffAvroOrJson(c: Codecs, contents: Contents, latest: Schema, jsonText: string, value: Json)
    requires 0 <= latest.id < 0x1_0000_0000 && contents(latest.id) == Some(latest)
    requires c.loads(jsonText) == Ok(value) && JsonInverts(c, value)
    requires c.parseAvro(latest.text).Ok? ==> AvroInverts(c, value, c.parseAvro(latest.text).value)
    requires EncodeField(c, latest, jsonText).Ok?
    ensures var (bytes, named) := EncodeField(c, latest, jsonText).value;
            DecodeFresh(c, Some(contents), Some(bytes)).encoding == named <==> latest.kind == "AVRO" || latest.kind == "JSON"
  {
    if latest.kind == "AVRO" {
      AvroFramingRoundTrip(c, contents, latest.id, jsonText, value, c.parseAvro(latest.text).value);
    } else if latest.kind == "JSON" {
      JsonFramingRoundTrip(c, contents, latest.id, jsonText, value);
    } else {
      HeaderParts(latest.id, Utf8.Encode(c.dumps(value)));
      assert "protobuf" != "json-schema" && "binary" != "json-schema" by {
        assert |"protobuf"| != |"json-schema"| && |"binary"| != |"json-schema"|;
      }
    }
  }
}
