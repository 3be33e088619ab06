/** Messages and the search filters of app/services/messages.py. */
module Messages {
  import opened Common

  /** A parsed JSON document; numbers keep their text. */
  datatype Json =
    | JNull
    | JBool(b: bool)
    | JNumber(text: string)
    | JString(s: string)
    | JArray(items: seq<Json>)
    | JObject(members: map<string, Json>)

  /** `json.loads` and `json.dumps`, and `str.lower`, are parameters of the model. */
  datatype Library = Library(loads: string -> Option<Json>, dumps: Json -> string, lower: string -> string)

  datatype Header = Header(name: string, value: string)

  datatype Message = Message(key: Option<string>, value: Option<string>, headers: seq<Header>)

  /** The filter fields of a `ScanSpec`; an empty string means no filter. */
  datatype Filters = Filters(
    keyContains: string, valueContains: string,
    headerKey: string, headerValue: string,
    jsonPath: string, jsonValue: string)

  // ---- Dotted paths ----

  /** A character in front of a split path: a dot starts a new segment. */
  function AddChar(c: char, segments: seq<string>): (r: seq<string>)
    requires |segments| >= 1
    ensures |r| >= 1
  {
    if c == '.' then [""] + segments else [[c] + segments[0]] + segments[1..]
  }

  /** `path.split(".")` */
  function Split(path: string): (segments: seq<string>)
    ensures |segments| >= 1
  {
    if path == "" then [""] else AddChar(path[0], Split(path[1..]))
  }

  /** `segment.isdigit()`, for ASCII */
  predicate IsDigits(s: string) {
    s != "" && forall i :: 0 <= i < |s| ==> IsDigit(s[i])
  }

  /** One turn of the loop over the segments; null and absence are the same to it. */
  function StepInto(node: Json, segment: string): Option<Json> {
    match node
    case JObject(members) =>
      if segment in members && members[segment] != JNull then Some(members[segment]) else None
    case JArray(items) =>
      if IsDigits(segment) && ToInt(segment) < |items| && items[ToInt(segment)] != JNull
      then Some(items[ToInt(segment)]) else None
    case _ => None
  }

  function Walk(node: Json, segments: seq<string>): Option<Json> {
    if segments == [] then Some(node)
    else
      match StepInto(node, segments[0])
      case None => None
      case Some(next) => Walk(next, segments[1..])
  }

  /** `_json_lookup` on a parsed document */
  method LookupPath(document: Json, path: string) returns (r: Option<Json>)
    ensures r == Walk(document, Split(path))
  {
    var node, segments := document, Split(path);
    for i := 0 to |segments|
      invariant Walk(document, segments) == Walk(node, segments[i..])
    {
      var segment := segments[i];
      assert segments[i..][1..] == segments[i + 1..];
      match node {
        case JObject(members) =>
          node := if segment in members then members[segment] else JNull;
        case JArray(items) =>
          if !IsDigits(segment) {
            return None;
          }
          var index := ToInt(segment);
          node := if index < |items| then items[index] else JNull;
        case _ =>
          return None;
      }
      if node == JNull {
        return None;
      }
    }
    return Some(node);
  }

  lemma {:induction false} SplitJoin(p: string, q: string)
    ensures Split(p + "." + q) == Split(p) + Split(q)
  {
    if p == "" {
      assert (p + "." + q)[1..] == q;
    } else {
      assert (p + "." + q)[1..] == p[1..] + "." + q;
      SplitJoin(p[1..], q);
      AddCharAppend(p[0], Split(p[1..]), Split(q));
    }
  }

  lemma AddCharAppend(c: char, first: seq<string>, more: seq<string>)
    requires |first| >= 1
    ensures AddChar(c, first + more) == AddChar(c, first) + more
  {
    assert (first + more)[0] == first[0] && (first + more)[1..] == first[1..] + more;
  }

  lemma {:induction false} WalkAppend(node: Json, s: seq<string>, t: seq<string>)
    ensures Walk(node, s + t)
         == match Walk(node, s) { case None => None case Some(mid) => Walk(mid, t) }
  {
    if s == [] {
      assert s + t == t;
    } else {
      assert (s + t)[1..] == s[1..] + t;
      match StepInto(node, s[0])
      case None =>
      case Some(next) => WalkAppend(next, s[1..], t);
    }
  }

  /** Walking `p.q` is walking `p` and then `q` from where that led. */
  lemma LookupComposes(document: Json, p: string, q: string)
    ensures Walk(document, Split(p + "." + q))
         == match Walk(document, Split(p)) { case None => None case Some(mid) => Walk(mid, Split(q)) }
  {
    SplitJoin(p, q);
    WalkAppend(document, Split(p), Split(q));
  }

  /** A step of a structural path: into an object or into a list. */
  datatype Step = Member(name: string) | Index(i: nat)

  function Segment(step: Step): string {
    match step
    case Member(name) => name
    case Index(i) => Decimal(i)
  }

  function Dotted(path: seq<Step>): string {
    if path == [] then ""
    else if |path| == 1 then Segment(path[0])
    else Segment(path[0]) + "." + Dotted(path[1..])
  }

  /** `path` leads from `node` to `target` through nodes that are not null. */
  predicate Leads(node: Json, path: seq<Step>, target: Json) {
    if path == [] then node == target
    else
      match path[0]
      case Member(name) =>
        && node.JObject? && name in node.members && node.members[name] != JNull && '.' !in name
        && Leads(node.members[name], path[1..], target)
      case Index(i) =>
        && node.JArray? && i < |node.items| && node.items[i] != JNull
        && Leads(node.items[i], path[1..], target)
  }

  lemma {:induction false} SplitPlain(s: string)
    requires '.' !in s
    ensures Split(s) == [s]
  {
    if s != "" {
      SplitPlain(s[1..]);
      assert [s[0]] + s[1..] == s;
    }
  }

  function Segments(path: seq<Step>): seq<string> {
    if path == [] then [] else [Segment(path[0])] + Segments(path[1..])
  }

  lemma {:induction false} SplitDotted(node: Json, path: seq<Step>, target: Json)
    requires path != [] && Leads(node, path, target)
    ensures Split(Dotted(path)) == Segments(path)
  {
    assert '.' !in Segment(path[0]);
    SplitPlain(Segment(path[0]));
    if |path| > 1 {
      var next := if path[0].Member? then node.members[path[0].name] else node.items[path[0].i];
      SplitDotted(next, path[1..], target);
      SplitJoin(Segment(path[0]), Dotted(path[1..]));
    } else {
      assert Segments(path[1..]) == [];
    }
  }

  lemma {:induction false} WalkFollows(node: Json, path: seq<Step>, target: Json)
    requires Leads(node, path, target)
    ensures Walk(node, Segments(path)) == Some(target)
  {
    if path != [] {
      if path[0].Index? {
        DecimalRoundTrip(path[0].i);
      }
      var next := if path[0].Member? then node.members[path[0].name] else node.items[path[0].i];
      assert StepInto(node, Segment(path[0])) == Some(next);
      WalkFollows(next, path[1..], target);
      assert Segments(path)[1..] == Segments(path[1..]);
    }
  }

  /** Every node that a structural path of dot-free names and list indexes leads to is found under
      the dotted rendering of the path. */
  lemma LookupFinds(document: Json, path: seq<Step>, target: Json)
    requires path != [] && Leads(document, path, target)
    ensures Walk(document, Split(Dotted(path))) == Some(target)
  {
    SplitDotted(document, path, target);
    WalkFollows(document, path, target);
  }

  // ---- Filters ----

  /** `needle in haystack` */
  predicate Contains(haystack: string, needle: string) {
    needle <= haystack || (haystack != "" && Contains(haystack[1..], needle))
  }

  function TextOr(text: Option<string>, default: string): string {
    if text.Some? then text.value else default
  }

  predicate MatchesHeader(msg: Message, name: string, value: string, lib: Library) {
    exists i :: 0 <= i < |msg.headers| && msg.headers[i].name == name
             && (value == "" || Contains(lib.lower(msg.headers[i].value), lib.lower(value)))
  }

  predicate MatchesPath(msg: Message, path: string, value: string, lib: Library) {
    && msg.value.Some?
    && lib.loads(msg.value.value).Some?
    && var node := Walk(lib.loads(msg.value.value).value, Split(path));
       && node.Some?
       && (value == "" ||
           var rendered := if node.value.JString? then node.value.s else lib.dumps(node.value);
           Contains(lib.lower(rendered), lib.lower(value)))
  }

  /** `matches` */
  predicate Matches(msg: Message, f: Filters, lib: Library) {
    && (f.keyContains == "" || Contains(lib.lower(TextOr(msg.key, "")), lib.lower(f.keyContains)))
    && (f.valueContains == "" || Contains(lib.lower(TextOr(msg.value, "")), lib.lower(f.valueContains)))
    && (f.headerKey == "" || MatchesHeader(msg, f.headerKey, f.headerValue, lib))
    && (f.jsonPath == "" || MatchesPath(msg, f.jsonPath, f.jsonValue, lib))
  }
}
