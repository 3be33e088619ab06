/** The header box of app/services/produce.py: parsing `name: value` lines, and the printed form that
    prefills the box (app/templates/produce.html). */
module Headers {
  import opened Common
  import opened Messages

  /** `str.isspace`, which is what `strip` removes. */
  predicate IsSpace(c: char) {
    var n := c as int;
    || 0x09 <= n <= 0x0D || 0x1C <= n <= 0x20 || n == 0x85 || n == 0xA0 || n == 0x1680
    || 0x2000 <= n <= 0x200A || n == 0x2028 || n == 0x2029 || n == 0x202F || n == 0x205F || n == 0x3000
  }

  /** The characters `splitlines` breaks at. */
  predicate IsBreak(c: char) {
    var n := c as int;
    0x0A <= n <= 0x0D || 0x1C <= n <= 0x1E || n == 0x85 || n == 0x2028 || n == 0x2029
  }

  predicate NoBreak(s: string) {
    forall i :: 0 <= i < |s| ==> !IsBreak(s[i])
  }

  function LineLength(s: string): (n: nat)
    ensures n <= |s| && NoBreak(s[..n]) && (n < |s| ==> IsBreak(s[n]))
  {
    if s == "" || IsBreak(s[0]) then 0
    else
      var n := LineLength(s[1..]) + 1;
      assert forall i :: 0 <= i < n ==> i == 0 || s[i] == s[1..][i - 1];
      n
  }

  /** `str.splitlines()`: a carriage return and the line feed after it break once. */
  function SplitLines(s: string): (lines: seq<string>)
    ensures forall i :: 0 <= i < |lines| ==> NoBreak(lines[i])
    decreases |s|
  {
    if s == "" then []
    else
      var n := LineLength(s);
      var skip := if n + 1 < |s| && s[n] == '\r' && s[n + 1] == '\n' then 2 else 1;
      [s[..n]] + SplitLines(Drop(s, n + skip))
  }

  function LStrip(s: string): (r: string)
    ensures r == "" || !IsSpace(r[0])
    ensures NoBreak(s) ==> NoBreak(r)
  {
    if s != "" && IsSpace(s[0]) then LStrip(s[1..]) else s
  }

  function RStrip(s: string): (r: string)
    ensures r <= s && (r == "" || !IsSpace(r[|r| - 1]))
  {
    if s != "" && IsSpace(s[|s| - 1]) then RStrip(s[..|s| - 1]) else s
  }

  /** `str.strip()` */
  function Strip(s: string): (r: string)
    ensures Trimmed(r) && (NoBreak(s) ==> NoBreak(r))
  {
    RStrip(LStrip(s))
  }

  predicate Trimmed(s: string) {
    s == "" || (!IsSpace(s[0]) && !IsSpace(s[|s| - 1]))
  }

  /** The place of the first colon, or the length when there is none. */
  function Colon(s: string): (n: nat)
    ensures n <= |s| && ':' !in s[..n] && (n < |s| ==> s[n] == ':')
  {
    if s == "" || s[0] == ':' then 0
    else
      var n := Colon(s[1..]) + 1;
      assert s[..n] == [s[0]] + s[1..][..n - 1];
      n
  }

  // ---- Parsing ----

  /** A non-blank line that has been stripped. */
  function ParseLine(line: string): Option<Header> {
    var n := Colon(line);
    var name, value := line[..n], if n < |line| then line[n + 1..] else "";
    if Strip(name) == "" then None else Some(Header(Strip(name), Strip(value)))
  }

  /** The headers of one line, none if it is blank; or None when it has no name. */
  function ParsedLine(line: string): Option<seq<Header>> {
    if Strip(line) == "" then Some([])
    else match ParseLine(Strip(line)) case None => None case Some(h) => Some([h])
  }

  /** What is parsed when some headers have been read already. */
  function After(headers: seq<Header>, r: Result<seq<Header>, nat>): Result<seq<Header>, nat> {
    match r case Err(n) => Err(n) case Ok(rest) => Ok(headers + rest)
  }

  /** The headers of the lines from number `lineno` on, or the number of the first line without a name. */
  function ParseLines(lines: seq<string>, lineno: nat): Result<seq<Header>, nat> {
    if lines == [] then Ok([])
    else
      match ParsedLine(lines[0])
      case None => Err(lineno)
      case Some(hs) => After(hs, ParseLines(lines[1..], lineno + 1))
  }

  function Parse(raw: string): Result<seq<Header>, nat> {
    ParseLines(SplitLines(raw), 1)
  }

  lemma AfterNone(r: Result<seq<Header>, nat>)
    ensures After([], r) == r
  {
    assert r.Ok? ==> [] + r.value == r.value;
  }

  lemma AfterAfter(first: seq<Header>, second: seq<Header>, r: Result<seq<Header>, nat>)
    ensures After(first, After(second, r)) == After(first + second, r)
  {
    assert r.Ok? ==> first + (second + r.value) == first + second + r.value;
  }

  /** `parse_headers` */
  method ParseHeaders(raw: string) returns (r: Result<seq<Header>, nat>)
    ensures r == Parse(raw)
  {
    var headers: seq<Header> := [];
    var lines := SplitLines(raw);
    assert lines[0..] == lines;
    AfterNone(Parse(raw));
    for i := 0 to |lines|
      invariant Parse(raw) == After(headers, ParseLines(lines[i..], i + 1))
    {
      var line := Strip(lines[i]);
      assert lines[i..][0] == lines[i] && lines[i..][1..] == lines[i + 1..];
      ghost var rest := ParseLines(lines[i + 1..], i + 2);
      if line == "" {
        AfterNone(rest);
        continue;
      }
      var n := Colon(line);
      var name, value := line[..n], if n < |line| then line[n + 1..] else "";
      if Strip(name) == "" {
        return Err(i + 1);
      }
      AfterAfter(headers, [Header(Strip(name), Strip(value))], rest);
      headers := headers + [Header(Strip(name), Strip(value))];
    }
    assert headers + [] == headers;
    return Ok(headers);
  }

  // ---- When it fails ----

  /** The line's first visible character is a colon. */
  predicate Nameless(line: string) {
    Strip(line) != "" && Strip(line)[0] == ':'
  }

  lemma NamelessLine(line: string)
    requires line != "" && Trimmed(line)
    ensures ParseLine(line).None? <==> line[0] == ':'
  {
    var n := Colon(line);
    if n > 0 {
      StripKeeps(line[..n], 0);
    }
  }

  /** A character that is not white space survives stripping. */
  lemma StripKeeps(s: string, i: nat)
    requires i < |s| && !IsSpace(s[i])
    ensures Strip(s) != ""
  {
    LStripKeeps(s, i);
    var l := LStrip(s);
    RStripKeeps(l);
  }

  lemma {:induction false} LStripKeeps(s: string, i: nat)
    requires i < |s| && !IsSpace(s[i])
    ensures LStrip(s) != ""
  {
    if IsSpace(s[0]) {
      LStripKeeps(s[1..], i - 1);
    }
  }

  lemma {:induction false} RStripKeeps(s: string)
    requires s != "" && !IsSpace(s[0])
    ensures RStrip(s) != ""
  {
    if IsSpace(s[|s| - 1]) {
      RStripKeeps(s[..|s| - 1]);
    }
  }

  /** The first line without a name, if there is one. */
  predicate FirstNameless(lines: seq<string>, k: nat) {
    k < |lines| && Nameless(lines[k]) && forall i :: 0 <= i < k ==> !Nameless(lines[i])
  }

  /** What the outcome of parsing says about the lines. */
  predicate OutcomeTells(lines: seq<string>, lineno: nat, r: Result<seq<Header>, nat>) {
    match r
    case Err(n) => n >= lineno && FirstNameless(lines, n - lineno)
    case Ok(_) => forall i :: 0 <= i < |lines| ==> !Nameless(lines[i])
  }

  lemma {:induction false} ParseLinesFails(lines: seq<string>, lineno: nat)
    ensures OutcomeTells(lines, lineno, ParseLines(lines, lineno))
    decreases |lines|
  {
    if lines != [] {
      var line, rest := Strip(lines[0]), ParseLines(lines[1..], lineno + 1);
      ParseLinesFails(lines[1..], lineno + 1);
      if line != "" {
        NamelessLine(line);
      }
      if Nameless(lines[0]) {
        assert ParseLines(lines, lineno) == Err(lineno);
      } else {
        LaterLines(lines, rest, lineno);
        assert ParseLines(lines, lineno).Err? <==> rest.Err?;
        assert rest.Err? ==> ParseLines(lines, lineno).error == rest.error;
      }
    }
  }

  lemma LaterLines(lines: seq<string>, rest: Result<seq<Header>, nat>, lineno: nat)
    requires lines != [] && !Nameless(lines[0]) && OutcomeTells(lines[1..], lineno + 1, rest)
    ensures OutcomeTells(lines, lineno, rest)
  {
    assert forall i :: 0 < i < |lines| ==> lines[i] == lines[1..][i - 1];
  }

  /** Parsing fails with a line number exactly when that line is the first whose first visible
      character is a colon. */
  lemma ParseFailsIff(raw: string, n: nat)
    requires n >= 1
    ensures Parse(raw) == Err(n) <==> FirstNameless(SplitLines(raw), n - 1)
  {
    ParseLinesFails(SplitLines(raw), 1);
    FirstIsUnique(SplitLines(raw), Parse(raw), n - 1);
  }

  lemma FirstIsUnique(lines: seq<string>, r: Result<seq<Header>, nat>, k: nat)
    requires OutcomeTells(lines, 1, r)
    ensures r == Err(k + 1) <==> FirstNameless(lines, k)
  {
  }

  // ---- Printing ----

  /** One header as the template prints it; a browser may send the line feed back with a carriage
      return before it. */
  function PrintLine(h: Header): string {
    h.name + ": " + h.value
  }

  function Print(hs: seq<Header>, eol: string): string {
    if hs == [] then "" else PrintLine(hs[0]) + eol + Print(hs[1..], eol)
  }

  predicate Normal(h: Header) {
    && h.name != "" && Trimmed(h.name) && ':' !in h.name && NoBreak(h.name)
    && Trimmed(h.value) && NoBreak(h.value)
  }

  predicate AllNormal(hs: seq<Header>) {
    forall i :: 0 <= i < |hs| ==> Normal(hs[i])
  }

  lemma {:induction false} StripSubset(s: string)
    ensures ':' !in s ==> ':' !in Strip(s)
  {
    LStripSubset(s);
  }

  lemma {:induction false} LStripSubset(s: string)
    ensures ':' !in s ==> ':' !in LStrip(s)
  {
    if s != "" && IsSpace(s[0]) {
      LStripSubset(s[1..]);
    }
  }

  lemma ParsedLineNormal(line: string)
    requires NoBreak(line) && ParseLine(line).Some?
    ensures Normal(ParseLine(line).value)
  {
    var n := Colon(line);
    StripSubset(line[..n]);
    assert NoBreak(line[..n]);
    if n < |line| {
      assert NoBreak(line[n + 1..]);
    }
  }

  lemma {:induction false} ParsedNormal(lines: seq<string>, lineno: nat)
    requires forall i :: 0 <= i < |lines| ==> NoBreak(lines[i])
    requires ParseLines(lines, lineno).Ok?
    ensures AllNormal(ParseLines(lines, lineno).value)
    decreases |lines|
  {
    if lines != [] {
      var line := Strip(lines[0]);
      ParsedNormal(lines[1..], lineno + 1);
      if line != "" {
        ParsedLineNormal(line);
      }
    }
  }

  lemma StripTrimmed(s: string)
    requires Trimmed(s)
    ensures Strip(s) == s
  {
  }

  lemma {:induction false} StripSpaceBefore(s: string)
    requires Trimmed(s)
    ensures Strip(" " + s) == s
  {
    var spaced := " " + s;
    assert IsSpace(spaced[0]) && spaced[1..] == s;
    assert LStrip(spaced) == LStrip(s) == s;
  }

  lemma {:induction false} ColonAt(name: string, rest: string)
    requires ':' !in name
    ensures Colon(name + ":" + rest) == |name|
  {
    if name != "" {
      assert name[0] != ':' && (name + ":" + rest)[1..] == name[1..] + ":" + rest;
      ColonAt(name[1..], rest);
    }
  }

  lemma LineOf(name: string, rest: string)
    requires ':' !in name
    ensures ParseLine(name + ":" + rest) == if Strip(name) == "" then None else Some(Header(Strip(name), Strip(rest)))
  {
    ColonAt(name, rest);
    var line := name + ":" + rest;
    assert line[..|name|] == name && line[|name| + 1..] == rest;
  }

  lemma StripPrinted(h: Header)
    requires Normal(h)
    ensures Strip(PrintLine(h)) == h.name + ":" + (if h.value == "" then "" else " " + h.value)
  {
    var line := PrintLine(h);
    assert line[0] == h.name[0];
    if h.value == "" {
      var bare := h.name + ":";
      assert line == bare + " " && line[..|line| - 1] == bare && bare == h.name + ":" + "";
      assert RStrip(line) == RStrip(bare) == bare;
    } else {
      assert line[|line| - 1] == h.value[|h.value| - 1];
      StripTrimmed(line);
      assert line == h.name + ":" + (" " + h.value);
    }
  }

  /** A printed line is parsed back to its header. */
  lemma PrintedLineParses(h: Header)
    requires Normal(h)
    ensures Strip(PrintLine(h)) != "" && ParseLine(Strip(PrintLine(h))) == Some(h)
  {
    StripTrimmed(h.name);
    StripPrinted(h);
    StripSpaceBefore(h.value);
    StripTrimmed("");
    LineOf(h.name, if h.value == "" then "" else " " + h.value);
  }

  lemma {:induction false} LineLengthOf(line: string, rest: string)
    requires NoBreak(line) && rest != "" && IsBreak(rest[0])
    ensures LineLength(line + rest) == |line|
  {
    if line != "" {
      assert (line + rest)[1..] == line[1..] + rest;
      LineLengthOf(line[1..], rest);
    } else {
      assert line + rest == rest;
    }
  }

  lemma SplitFirst(line: string, eol: string, rest: string)
    requires NoBreak(line) && (eol == "\n" || eol == "\r\n")
    ensures SplitLines(line + eol + rest) == [line] + SplitLines(rest)
  {
    var s := line + eol + rest;
    assert s == line + (eol + rest);
    LineLengthOf(line, eol + rest);
    assert s[..|line|] == line;
    assert Drop(s, |line| + |eol|) == rest;
  }

  lemma NormalLine(h: Header)
    requires Normal(h)
    ensures NoBreak(PrintLine(h))
  {
  }

  /** The lines of a printed list. */
  function PrintedLines(hs: seq<Header>): seq<string> {
    if hs == [] then [] else [PrintLine(hs[0])] + PrintedLines(hs[1..])
  }

  lemma {:induction false} PrintSplits(hs: seq<Header>, eol: string)
    requires AllNormal(hs) && (eol == "\n" || eol == "\r\n")
    ensures SplitLines(Print(hs, eol)) == PrintedLines(hs)
  {
    if hs != [] {
      NormalLine(hs[0]);
      PrintSplits(hs[1..], eol);
      SplitFirst(PrintLine(hs[0]), eol, Print(hs[1..], eol));
    }
  }

  lemma {:induction false} PrintedParses(hs: seq<Header>, lineno: nat)
    requires AllNormal(hs)
    ensures ParseLines(PrintedLines(hs), lineno) == Ok(hs)
  {
    if hs != [] {
      PrintedLineParses(hs[0]);
      PrintedParses(hs[1..], lineno + 1);
      FirstLineParses(hs[0], hs[1..], PrintedLines(hs[1..]), lineno);
      assert [hs[0]] + hs[1..] == hs;
    }
  }

  lemma FirstLineParses(h: Header, hs: seq<Header>, lines: seq<string>, lineno: nat)
    requires Strip(PrintLine(h)) != "" && ParseLine(Strip(PrintLine(h))) == Some(h)
    requires ParseLines(lines, lineno + 1) == Ok(hs)
    ensures ParseLines([PrintLine(h)] + lines, lineno) == Ok([h] + hs)
  {
    assert ([PrintLine(h)] + lines)[1..] == lines;
  }

  /** Headers survive being printed and parsed again exactly when they are in normal form: trimmed,
      without line breaks, with a non-empty name without a colon. */
  lemma PrintParseIff(hs: seq<Header>, eol: string)
    requires eol == "\n" || eol == "\r\n"
    ensures Parse(Print(hs, eol)) == Ok(hs) <==> AllNormal(hs)
  {
    if AllNormal(hs) {
      PrintSplits(hs, eol);
      PrintedParses(hs, 1);
    }
    if Parse(Print(hs, eol)) == Ok(hs) {
      ParsedNormal(SplitLines(Print(hs, eol)), 1);
    }
  }

  /** Whatever was typed, once it parses, printing the result and parsing it again changes nothing. */
  lemma ParsedSurvivesPrinting(raw: string, eol: string)
    requires Parse(raw).Ok? && (eol == "\n" || eol == "\r\n")
    ensures Parse(Print(Parse(raw).value, eol)) == Parse(raw)
  {
    ParsedNormal(SplitLines(raw), 1);
    PrintParseIff(Parse(raw).value, eol);
  }

  // ---- What a typed box means ----

  predicate Blank(s: string) {
    forall i :: 0 <= i < |s| ==> IsSpace(s[i])
  }

  /** `inner` with white space around it. */
  ghost predicate Padded(s: string, inner: string) {
    exists before, after :: s == before + inner + after && Blank(before) && Blank(after)
  }

  lemma {:induction false} LStripPads(s: string) returns (before: string)
    ensures s == before + LStrip(s) && Blank(before)
  {
    before := "";
    if s != "" && IsSpace(s[0]) {
      var rest := LStripPads(s[1..]);
      before := [s[0]] + rest;
    }
  }

  lemma {:induction false} RStripPads(s: string) returns (after: string)
    ensures s == RStrip(s) + after && Blank(after)
  {
    after := "";
    if s != "" && IsSpace(s[|s| - 1]) {
      var rest := RStripPads(s[..|s| - 1]);
      after := rest + [s[|s| - 1]];
    }
  }

  lemma {:induction false} LStripBlank(before: string, s: string)
    requires Blank(before)
    ensures LStrip(before + s) == LStrip(s)
  {
    if before == "" {
      assert before + s == s;
    } else {
      assert (before + s)[1..] == before[1..] + s;
      LStripBlank(before[1..], s);
    }
  }

  lemma {:induction false} RStripBlank(s: string, after: string)
    requires Blank(after)
    ensures RStrip(s + after) == RStrip(s)
  {
    if after == "" {
      assert s + after == s;
    } else {
      assert (s + after)[..|s + after| - 1] == s + after[..|after| - 1];
      RStripBlank(s, after[..|after| - 1]);
    }
  }

  lemma StripPadded(before: string, inner: string, after: string)
    requires Trimmed(inner) && Blank(before) && Blank(after)
    ensures Strip(before + inner + after) == inner
  {
    assert before + inner + after == before + (inner + after);
    LStripBlank(before, inner + after);
    if inner == "" {
      assert inner + after == after == after + "";
      LStripBlank(after, "");
    } else {
      assert (inner + after)[0] == inner[0];
      RStripBlank(inner, after);
    }
  }

  /** Stripping leaves what is trimmed inside the white space around it. */
  lemma StripIff(s: string, inner: string)
    ensures Strip(s) == inner <==> Trimmed(inner) && Padded(s, inner)
  {
    var before := LStripPads(s);
    var after := RStripPads(LStrip(s));
    assert s == before + Strip(s) + after;
    if Trimmed(inner) && Padded(s, inner) {
      var left, right :| s == left + inner + right && Blank(left) && Blank(right);
      StripPadded(left, inner, right);
    }
  }

  lemma {:induction false} LineLengthWhole(line: string)
    requires NoBreak(line)
    ensures LineLength(line) == |line|
  {
    if line != "" {
      LineLengthWhole(line[1..]);
    }
  }

  lemma OneLine(line: string)
    requires NoBreak(line)
    ensures SplitLines(line) == if line == "" then [] else [line]
  {
    LineLengthWhole(line);
    assert line[..|line|] == line;
  }

  lemma ParseOne(line: string)
    requires NoBreak(line)
    ensures Parse(line) == match ParsedLine(line) case None => Err(1) case Some(hs) => Ok(hs)
  {
    OneLine(line);
    if line == "" {
      StripTrimmed(line);
    } else {
      LoneLine(line);
    }
  }

  lemma LoneLine(line: string)
    ensures ParseLines([line], 1) == match ParsedLine(line) case None => Err(1) case Some(hs) => Ok(hs)
  {
    assert [line][1..] == [] && ParseLines([], 2) == Ok([]);
    match ParsedLine(line)
    case None =>
    case Some(hs) => assert hs + [] == hs;
  }

  lemma TrimmedAround(left: string, right: string)
    requires (left == "" || !IsSpace(left[0])) && (right == "" || !IsSpace(right[|right| - 1]))
    ensures Trimmed(left + ":" + right)
  {
    var s := left + ":" + right;
    assert s[0] == if left == "" then ':' else left[0];
    assert s[|s| - 1] == if right == "" then ':' else right[|right| - 1];
  }

  lemma Reassociate(before: string, left: string, right: string, after: string)
    ensures (before + left) + ":" + (right + after) == before + (left + ":" + right) + after
  {
  }

  lemma StripKeepsColon(name: string, value: string)
    ensures Strip(name + ":" + value) == LStrip(name) + ":" + RStrip(value)
  {
    var before := LStripPads(name);
    var after := RStripPads(value);
    TrimmedAround(LStrip(name), RStrip(value));
    Reassociate(before, LStrip(name), RStrip(value), after);
    StripPadded(before, LStrip(name) + ":" + RStrip(value), after);
  }

  lemma StripRStripped(before: string, inner: string, after: string)
    requires Trimmed(inner) && Blank(before) && Blank(after)
    ensures Strip(RStrip(before + inner + after)) == inner
  {
    RStripBlank(before + inner, after);
    if inner == "" {
      assert before + inner == "" + before;
      RStripBlank("", before);
    } else {
      assert (before + inner)[|before + inner| - 1] == inner[|inner| - 1];
      StripPadded(before, inner, "");
      assert before + inner + "" == before + inner;
    }
  }

  lemma StripRight(inner: string, after: string)
    requires Trimmed(inner) && Blank(after)
    ensures Strip(inner + after) == inner
  {
    StripPadded("", inner, after);
    assert "" + inner + after == inner + after;
  }

  lemma LStripInner(inner: string, after: string)
    requires inner != "" && !IsSpace(inner[0])
    ensures LStrip(inner + after) == inner + after
  {
    assert (inner + after)[0] == inner[0];
  }

  lemma StripLStripped(before: string, inner: string, after: string)
    requires Trimmed(inner) && Blank(before) && Blank(after)
    ensures Strip(LStrip(before + (inner + after))) == inner
  {
    LStripBlank(before, inner + after);
    if inner == "" {
      assert inner + after == after + "";
      LStripBlank(after, "");
    } else {
      LStripInner(inner, after);
      StripRight(inner, after);
    }
  }

  /** One line: blank, it is ignored; without a colon it is a name with an empty value; else its first
      colon parts the name from the value, both stripped, and an empty name is refused. */
  lemma LineTells(name: string, value: string)
    requires NoBreak(name) && NoBreak(value) && ':' !in name
    ensures Parse(name) == if Strip(name) == "" then Ok([]) else Ok([Header(Strip(name), "")])
    ensures Parse(name + ":" + value) == if Strip(name) == "" then Err(1) else Ok([Header(Strip(name), Strip(value))])
  {
    StripSubset(name);
    ParseOne(name);
    if Strip(name) != "" {
      BareName(Strip(name));
    }
    ParseOne(name + ":" + value);
    StripKeepsColon(name, value);
    LStripSubset(name);
    LineOf(LStrip(name), RStrip(value));
    StripAgain(name);
    StripAgain(value);
  }

  lemma StripAgain(s: string)
    ensures Strip(LStrip(s)) == Strip(s) && Strip(RStrip(s)) == Strip(s)
  {
    StripIff(s, Strip(s));
    var before, after :| s == before + Strip(s) + after && Blank(before) && Blank(after);
    assert before + Strip(s) + after == before + (Strip(s) + after);
    StripLStripped(before, Strip(s), after);
    StripRStripped(before, Strip(s), after);
  }

  lemma {:induction false} NoColon(s: string)
    requires ':' !in s
    ensures Colon(s) == |s|
  {
  }

  lemma BareName(name: string)
    requires ':' !in name && name != "" && Trimmed(name)
    ensures ParseLine(name) == Some(Header(name, ""))
  {
    NoColon(name);
    assert name[..|name|] == name;
    StripTrimmed(name);
    StripTrimmed("");
  }

  function Later(r: Result<seq<Header>, nat>): Result<seq<Header>, nat> {
    match r case Err(n) => Err(n + 1) case Ok(hs) => Ok(hs)
  }

  lemma {:induction false} ParseLinesShift(lines: seq<string>, lineno: nat)
    ensures ParseLines(lines, lineno + 1) == Later(ParseLines(lines, lineno))
    decreases |lines|
  {
    if lines != [] {
      ParseLinesShift(lines[1..], lineno + 1);
    }
  }

  lemma FirstLine(line: string, more: seq<string>)
    ensures ParseLines([line] + more, 1)
         == match ParsedLine(line) case None => Err(1) case Some(hs) => After(hs, Later(ParseLines(more, 1)))
  {
    assert ([line] + more)[1..] == more;
    ParseLinesShift(more, 1);
  }

  /** The outcome of one line followed by more. */
  function Then(first: Result<seq<Header>, nat>, more: Result<seq<Header>, nat>): Result<seq<Header>, nat> {
    match first
    case Err(n) => Err(n)
    case Ok(hs) => match more case Err(n) => Err(n + 1) case Ok(rest) => Ok(hs + rest)
  }

  /** More lines: the headers of the first line and those of the rest; the first line without a name
      is the one reported. A line feed ends a line, with or without a carriage return before it. */
  lemma ParseLineByLine(line: string, eol: string, rest: string)
    requires NoBreak(line) && (eol == "\n" || eol == "\r\n")
    ensures Parse(line + eol + rest) == Then(Parse(line), Parse(rest))
  {
    SplitFirst(line, eol, rest);
    FirstLine(line, SplitLines(rest));
    ParseOne(line);
  }
}
