/** What the filters of a search mean, said of the message alone: what each field looks at, what it
    looks for, and that together they are a conjunction. */
module Search {
  import opened Common
  import opened Messages

  // ---- Containment ----

  /** `needle` lies somewhere in `haystack`. */
  ghost predicate Holds(haystack: string, needle: string) {
    exists before, after :: haystack == before + needle + after
  }

  lemma {:induction false} ContainsIff(haystack: string, needle: string)
    ensures Contains(haystack, needle) <==> Holds(haystack, needle)
  {
    if needle <= haystack {
      assert haystack == "" + needle + haystack[|needle|..];
    } else {
      if haystack != "" {
        ContainsIff(haystack[1..], needle);
        if Holds(haystack[1..], needle) {
          var before, after :| haystack[1..] == before + needle + after;
          assert haystack == [haystack[0]] + before + needle + after;
        }
      }
      forall before, after | haystack == before + needle + after ensures Contains(haystack, needle) {
        assert before != "" ==> haystack[1..] == before[1..] + needle + after;
      }
    }
  }

  // ---- Dotted paths ----

  function Join(segments: seq<string>): string
    requires segments != []
  {
    if |segments| == 1 then segments[0] else segments[0] + "." + Join(segments[1..])
  }

  predicate DotFree(segments: seq<string>) {
    forall i :: 0 <= i < |segments| ==> '.' !in segments[i]
  }

  lemma {:induction false} SplitJoins(path: string)
    ensures DotFree(Split(path)) && Join(Split(path)) == path
  {
    if path != "" {
      SplitJoins(path[1..]);
      JoinAdds(path[0], Split(path[1..]));
      assert path == [path[0]] + path[1..];
    }
  }

  lemma JoinAdds(c: char, segments: seq<string>)
    requires segments != [] && DotFree(segments)
    ensures DotFree(AddChar(c, segments)) && Join(AddChar(c, segments)) == [c] + Join(segments)
  {
    if c == '.' {
      assert ([""] + segments)[1..] == segments;
      assert "" + "." + Join(segments) == ['.'] + Join(segments);
    } else {
      var all := [[c] + segments[0]] + segments[1..];
      assert all[1..] == segments[1..];
      if |segments| > 1 {
        assert ([c] + segments[0]) + "." + Join(segments[1..]) == [c] + (segments[0] + "." + Join(segments[1..]));
      }
    }
  }

  lemma {:induction false} JoinSplits(segments: seq<string>)
    requires segments != [] && DotFree(segments)
    ensures Split(Join(segments)) == segments
  {
    SplitPlain(segments[0]);
    if |segments| > 1 {
      JoinSplits(segments[1..]);
      SplitJoin(segments[0], Join(segments[1..]));
    }
  }

  /** A path is split into the dot-free segments that joined by dots give it back. */
  lemma SplitIff(path: string, segments: seq<string>)
    requires segments != []
    ensures Split(path) == segments <==> DotFree(segments) && Join(segments) == path
  {
    SplitJoins(path);
    if DotFree(segments) && Join(segments) == path {
      JoinSplits(segments);
    }
  }

  /** A segment names a step: a member by its name, a list element by any decimal numeral for it. */
  predicate Names(segment: string, step: Step) {
    match step
    case Member(name) => segment == name
    case Index(i) => segment != "" && (forall j :: 0 <= j < |segment| ==> '0' <= segment[j] <= '9') && ToInt(segment) == i
  }

  predicate AllName(segments: seq<string>, steps: seq<Step>) {
    |segments| == |steps| && forall i :: 0 <= i < |segments| ==> Names(segments[i], steps[i])
  }

  /** The dotted path leads to `target` through nodes that are not null. */
  ghost predicate Reaches(document: Json, path: string, target: Json) {
    exists steps :: AllName(Split(path), steps) && Leads(document, steps, target)
  }

  lemma {:induction false} WalkLeads(node: Json, segments: seq<string>) returns (steps: seq<Step>)
    requires Walk(node, segments).Some? && DotFree(segments)
    ensures AllName(segments, steps) && Leads(node, steps, Walk(node, segments).value)
  {
    steps := [];
    if segments != [] {
      var rest := WalkLeads(StepInto(node, segments[0]).value, segments[1..]);
      var step := if node.JObject? then Member(segments[0]) else Index(ToInt(segments[0]));
      steps := [step] + rest;
      assert steps[1..] == rest;
      forall i | 0 <= i < |segments| ensures Names(segments[i], steps[i]) {
        assert i > 0 ==> segments[i] == segments[1..][i - 1] && steps[i] == rest[i - 1];
      }
    }
  }

  lemma {:induction false} LeadsWalk(node: Json, segments: seq<string>, steps: seq<Step>, target: Json)
    requires AllName(segments, steps) && Leads(node, steps, target)
    ensures Walk(node, segments) == Some(target)
  {
    if segments != [] {
      assert Names(segments[0], steps[0]);
      var next := if steps[0].Member? then node.members[steps[0].name] else node.items[steps[0].i];
      assert forall i :: 0 <= i < |segments[1..]| ==> segments[1..][i] == segments[i + 1] && steps[1..][i] == steps[i + 1];
      LeadsWalk(next, segments[1..], steps[1..], target);
    }
  }

  /** A lookup finds exactly what the path leads to, and nothing where it leads nowhere. */
  lemma LookupIff(document: Json, path: string, target: Json)
    ensures Walk(document, Split(path)) == Some(target) <==> Reaches(document, path, target)
  {
    if Walk(document, Split(path)) == Some(target) {
      SplitJoins(path);
      var steps := WalkLeads(document, Split(path));
    }
    if Reaches(document, path, target) {
      var steps :| AllName(Split(path), steps) && Leads(document, steps, target);
      LeadsWalk(document, Split(path), steps, target);
    }
  }

  // ---- One filter at a time ----

  const NO_FILTERS := Filters("", "", "", "", "", "")

  /** The key filter looks at the key alone, a missing one counting as empty, and ignores case. */
  lemma KeyFilterIff(msg: Message, key: string, lib: Library)
    ensures Matches(msg, NO_FILTERS.(keyContains := key), lib)
       <==> key == "" || Holds(lib.lower(match msg.key case Some(text) => text case None => ""), lib.lower(key))
  {
    ContainsIff(lib.lower(match msg.key case Some(text) => text case None => ""), lib.lower(key));
  }

  /** The value filter looks at the value alone, in the same way. */
  lemma ValueFilterIff(msg: Message, value: string, lib: Library)
    ensures Matches(msg, NO_FILTERS.(valueContains := value), lib)
       <==> value == "" || Holds(lib.lower(match msg.value case Some(text) => text case None => ""), lib.lower(value))
  {
    ContainsIff(lib.lower(match msg.value case Some(text) => text case None => ""), lib.lower(value));
  }

  /** The header filters ask for one header with exactly the name and, if a value is given, with that
      value in its own, ignoring case; a value without a name asks for nothing. */
  lemma HeaderFilterIff(msg: Message, name: string, value: string, lib: Library)
    ensures Matches(msg, NO_FILTERS.(headerKey := name, headerValue := value), lib)
       <==> name == "" || exists h :: h in msg.headers && h.name == name && (value == "" || Holds(lib.lower(h.value), lib.lower(value)))
  {
    forall h | h in msg.headers ensures Contains(lib.lower(h.value), lib.lower(value)) <==> Holds(lib.lower(h.value), lib.lower(value)) {
      ContainsIff(lib.lower(h.value), lib.lower(value));
    }
    if MatchesHeader(msg, name, value, lib) {
      var i :| 0 <= i < |msg.headers| && msg.headers[i].name == name
               && (value == "" || Contains(lib.lower(msg.headers[i].value), lib.lower(value)));
      assert msg.headers[i] in msg.headers;
    }
  }

  /** The text a node is compared by: a string as it is, anything else as JSON. */
  function Rendering(node: Json, lib: Library): string {
    match node
    case JString(s) => s
    case _ => lib.dumps(node)
  }

  /** The path filters ask for a JSON value in which the path leads somewhere and, if a value is given,
      for that value in the rendering of the node, ignoring case; a value without a path asks for
      nothing. */
  lemma PathFilterIff(msg: Message, path: string, value: string, lib: Library)
    ensures Matches(msg, NO_FILTERS.(jsonPath := path, jsonValue := value), lib)
       <==> path == "" ||
            (&& msg.value.Some? && lib.loads(msg.value.value).Some?
             && exists node :: Reaches(lib.loads(msg.value.value).value, path, node)
                  && (value == "" || Holds(lib.lower(Rendering(node, lib)), lib.lower(value))))
  {
    if msg.value.Some? && lib.loads(msg.value.value).Some? {
      var document := lib.loads(msg.value.value).value;
      forall node
        ensures Walk(document, Split(path)) == Some(node) <==> Reaches(document, path, node)
        ensures Contains(lib.lower(Rendering(node, lib)), lib.lower(value)) <==> Holds(lib.lower(Rendering(node, lib)), lib.lower(value))
      {
        LookupIff(document, path, node);
        ContainsIff(lib.lower(Rendering(node, lib)), lib.lower(value));
      }
    }
  }

  /** All filters together let through exactly what each of them lets through. */
  lemma FiltersConjoin(msg: Message, f: Filters, lib: Library)
    ensures Matches(msg, f, lib) <==>
            && Matches(msg, NO_FILTERS.(keyContains := f.keyContains), lib)
            && Matches(msg, NO_FILTERS.(valueContains := f.valueContains), lib)
            && Matches(msg, NO_FILTERS.(headerKey := f.headerKey, headerValue := f.headerValue), lib)
            && Matches(msg, NO_FILTERS.(jsonPath := f.jsonPath, jsonValue := f.jsonValue), lib)
  {
  }

  /** What the filters ask for, said of the message without any of the search's own functions. */
  ghost predicate Passes(msg: Message, f: Filters, lib: Library) {
    && (f.keyContains == "" ||
        Holds(lib.lower(match msg.key case Some(text) => text case None => ""), lib.lower(f.keyContains)))
    && (f.valueContains == "" ||
        Holds(lib.lower(match msg.value case Some(text) => text case None => ""), lib.lower(f.valueContains)))
    && (f.headerKey == "" ||
        exists h :: h in msg.headers && h.name == f.headerKey
                    && (f.headerValue == "" || Holds(lib.lower(h.value), lib.lower(f.headerValue))))
    && (f.jsonPath == "" ||
        (&& msg.value.Some? && lib.loads(msg.value.value).Some?
         && exists node :: Reaches(lib.loads(msg.value.value).value, f.jsonPath, node)
              && (f.jsonValue == "" || Holds(lib.lower(Rendering(node, lib)), lib.lower(f.jsonValue)))))
  }

  lemma MatchesIff(msg: Message, f: Filters, lib: Library)
    ensures Matches(msg, f, lib) <==> Passes(msg, f, lib)
  {
    KeyFilterIff(msg, f.keyContains, lib);
    ValueFilterIff(msg, f.valueContains, lib);
    HeaderFilterIff(msg, f.headerKey, f.headerValue, lib);
    PathFilterIff(msg, f.jsonPath, f.jsonValue, lib);
    FiltersConjoin(msg, f, lib);
  }
}
