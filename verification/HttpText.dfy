/** HTTP requests as text: the parser on a buffered text, and header blocks as the two programs print them. */
module HttpText {

  const CRLF: string := "\r\n"

  datatype State = ExpectRequestLine | ExpectHeaders | ExpectBody | GotAll
  datatype Method = Invalid | Get | Post | Put | Delete | Head
  datatype Version = Unknown | Http10 | Http11

  datatype Request = Request(state: State, verb: Method, version: Version, path: string, query: string,
                             headers: map<string, string>)

  const BLANK: Request := Request(ExpectRequestLine, Invalid, Unknown, "", "", map[])

  // ----- searching -----

  /** Index of the first `c`, or the length. */
  function Find(s: string, c: char): (k: nat)
    ensures k <= |s| && c !in s[..k] && (k < |s| ==> s[k] == c)
  {
    if s == [] || s[0] == c then 0 else
      var k := 1 + Find(s[1..], c);
      assert s[..k] == [s[0]] + s[1..][..k - 1];
      k
  }

  predicate CrlfAt(s: string, k: nat) {
    k + 2 <= |s| && s[k] == '\r' && s[k + 1] == '\n'
  }

  /** Index of the first CRLF, or the length. */
  function FindCrlf(s: string): (k: nat)
    ensures k <= |s| && (k < |s| ==> CrlfAt(s, k)) && forall j :: 0 <= j < k ==> !CrlfAt(s, j)
  {
    if s == [] || CrlfAt(s, 0) then 0 else
      var k := 1 + FindCrlf(s[1..]);
      assert forall j :: 0 < j < k ==> (CrlfAt(s, j) <==> CrlfAt(s[1..], j - 1));
      k
  }

  /** Nothing in the text ends a line. */
  predicate OneLine(s: string) {
    forall k :: 0 <= k < |s| ==> !CrlfAt(s, k)
  }

  lemma FindIs(before: string, c: char, after: string)
    requires c !in before
    ensures Find(before + [c] + after, c) == |before|
  {
    var s := before + [c] + after;
    var k := Find(s, c);
    assert s[|before|] == c;
    forall j | 0 <= j < |before| ensures s[j] != c { assert s[j] == before[j] && before[j] in before; }
    if k > 0 { assert s[k - 1] == s[..k][k - 1]; }
    assert forall j :: 0 <= j < k ==> s[j] in s[..k];
  }

  lemma FindNone(s: string, c: char)
    requires c !in s
    ensures Find(s, c) == |s|
  {
  }

  lemma FindAny(s: string, c: char)
    ensures c in s <==> Find(s, c) < |s|
  {
    hide Find;
    if Find(s, c) == |s| { assert s[..|s|] == s; }
  }

  lemma LineEnds(line: string, rest: string)
    requires OneLine(line)
    ensures FindCrlf(line + CRLF + rest) == |line|
  {
    var s := line + CRLF + rest;
    assert CrlfAt(s, |line|);
    forall j | 0 <= j < |line| ensures !CrlfAt(s, j) {
      assert !CrlfAt(line, j);
      if j + 1 == |line| { assert s[j + 1] == CRLF[0]; }
    }
  }

  // ----- the parser -----

  function MethodOf(s: string): Method {
    if s == "GET" then Get else if s == "POST" then Post else if s == "PUT" then Put
    else if s == "DELETE" then Delete else if s == "HEAD" then Head else Invalid
  }

  function VersionOf(s: string): Version {
    if s == "HTTP/1.0" then Http10 else if s == "HTTP/1.1" then Http11 else Unknown
  }

  /** The part of a request line after the method. */
  function AfterMethod(line: string): string {
    var space := Find(line, ' ');
    if space == |line| then "" else line[space + 1..]
  }

  /** A question mark behind the target makes the query a range that ends before it starts. */
  predicate QueryInOrder(line: string) {
    var rest := AfterMethod(line);
    Find(rest, '?') < Find(rest, ' ') || Find(rest, '?') == |rest| || Find(rest, ' ') == |rest|
  }

  datatype Line = Line(ok: bool, request: Request)

  function ParseRequestLine(r: Request, line: string): Line
    requires QueryInOrder(line)
  {
    var space := Find(line, ' ');
    if space == |line| then Line(false, r) else
      var r1 := r.(verb := MethodOf(line[..space]));
      if r1.verb == Invalid then Line(false, r1) else ParseTarget(r1, line[space + 1..])
  }

  function ParseTarget(r: Request, rest: string): Line
    requires Find(rest, '?') < Find(rest, ' ') || Find(rest, '?') == |rest| || Find(rest, ' ') == |rest|
  {
    var question, space := Find(rest, '?'), Find(rest, ' ');
    if space == |rest| then Line(false, r) else
      var r1 := if question == |rest| then r.(path := rest[..space])
                else r.(path := rest[..question], query := rest[question + 1..space]);
      var version := rest[space + 1..];
      if version == "" then Line(false, r1) else Line(VersionOf(version) != Unknown, r1.(version := VersionOf(version)))
  }

  function TrimFront(s: string): string {
    if s != [] && s[0] == ' ' then TrimFront(s[1..]) else s
  }

  function TrimBack(s: string): string {
    if s != [] && s[|s| - 1] == ' ' then TrimBack(s[..|s| - 1]) else s
  }

  function Trim(s: string): string {
    TrimBack(TrimFront(s))
  }

  function ParseHeader(r: Request, line: string, colon: nat): Request
    requires colon < |line|
  {
    r.(headers := r.headers[line[..colon] := Trim(line[colon + 1..])])
  }

  /** The request as far as it got, and the text that is left. */
  datatype Parse = Parse(request: Request, rest: string)

  /** Header lines up to one without a colon, which is not consumed. */
  function ParseHeaders(r: Request, text: string): Parse
    decreases |text|
  {
    var end := FindCrlf(text);
    if end == |text| then Parse(r, text) else
      var line := text[..end];
      var colon := Find(line, ':');
      if colon == |line| then Parse(r.(state := GotAll), text)
      else ParseHeaders(ParseHeader(r, line, colon), text[end + 2..])
  }

  /** The first line of a message is there as a whole, and its question mark is where the code expects it. */
  predicate Delivered(r: Request, text: string) {
    r.state == ExpectRequestLine ==> FindCrlf(text) < |text| && QueryInOrder(text[..FindCrlf(text)])
  }

  function ParseMessage(r: Request, text: string): Parse
    requires Delivered(r, text)
  {
    match r.state
    case ExpectRequestLine =>
      var end := FindCrlf(text);
      var line := ParseRequestLine(r, text[..end]);
      var next := line.request.(state := ExpectHeaders);
      if line.ok then ParseHeaders(next, text[end + 2..]) else Parse(next, text[end + 2..])
    case ExpectHeaders => ParseHeaders(r, text)
    case ExpectBody => Parse(r.(state := GotAll), "")
    case GotAll => Parse(r, "")
  }

  // ----- header blocks -----

  datatype Header = Header(name: string, value: string)

  function PrintHeader(h: Header): string {
    h.name + ": " + h.value + CRLF
  }

  function PrintHeaders(hs: seq<Header>): string {
    if hs == [] then "" else PrintHeader(hs[0]) + PrintHeaders(hs[1..])
  }

  lemma {:induction false} PrintMore(a: seq<Header>, b: seq<Header>)
    ensures PrintHeaders(a + b) == PrintHeaders(a) + PrintHeaders(b)
  {
    if a == [] {
      assert a + b == b;
    } else {
      assert (a + b)[1..] == a[1..] + b;
      PrintMore(a[1..], b);
    }
  }

  lemma PrintOne(name: string, value: string)
    ensures PrintHeaders([Header(name, value)]) == name + ": " + value + CRLF
  {
    assert PrintHeaders([Header(name, value)][1..]) == "";
  }

  /** The name ends at the first colon, and the line at its end. */
  predicate Printable(h: Header) {
    ':' !in h.name && OneLine(h.name + ": " + h.value)
  }

  /** A later header of the same name replaces an earlier one. */
  function Collect(m: map<string, string>, hs: seq<Header>): map<string, string>
    decreases |hs|
  {
    if hs == [] then m else Collect(m[hs[0].name := Trim(hs[0].value)], hs[1..])
  }

  lemma HeaderLine(h: Header)
    requires Printable(h)
    ensures var line := h.name + ": " + h.value;
      Find(line, ':') == |h.name| && line[|h.name| + 1..] == " " + h.value && line[..|h.name|] == h.name
      && Trim(" " + h.value) == Trim(h.value)
  {
    FindIs(h.name, ':', " " + h.value);
    assert h.name + [':'] + (" " + h.value) == h.name + ": " + h.value;
    assert (" " + h.value)[1..] == h.value;
  }

  /** Parsing one printed line and going on. */
  lemma OneHeader(r: Request, h: Header, tail: string)
    requires Printable(h)
    ensures ParseHeaders(r, PrintHeader(h) + tail) == ParseHeaders(r.(headers := r.headers[h.name := Trim(h.value)]), tail)
  {
    var line := h.name + ": " + h.value;
    var text := PrintHeader(h) + tail;
    assert text == line + CRLF + tail;
    LineEnds(line, tail);
    HeaderLine(h);
    assert text[..|line|] == line && text[|line| + 2..] == tail;
  }

  /**
   * A printed header block comes back as exactly its headers, without outer spaces in the values; the empty line
   * that ends it is recognised but not consumed.
   */
  lemma {:induction false} HeaderRoundTrip(r: Request, hs: seq<Header>, rest: string)
    requires forall h :: h in hs ==> Printable(h)
    ensures ParseHeaders(r, PrintHeaders(hs) + CRLF + rest)
      == Parse(r.(state := GotAll, headers := Collect(r.headers, hs)), CRLF + rest)
    decreases |hs|
  {
    if hs == [] {
      assert PrintHeaders(hs) + CRLF + rest == "" + CRLF + rest;
      LineEnds("", rest);
    } else {
      hide ParseHeaders, PrintHeader, Printable;
      var tail := PrintHeaders(hs[1..]) + CRLF + rest;
      assert PrintHeaders(hs) + CRLF + rest == PrintHeader(hs[0]) + tail;
      OneHeader(r, hs[0], tail);
      HeaderRoundTrip(r.(headers := r.headers[hs[0].name := Trim(hs[0].value)]), hs[1..], rest);
    }
  }

  /** A field line as it may arrive: the first colon ends the name. */
  predicate IsField(h: Header) {
    ':' !in h.name && OneLine(h.name + ":" + h.value)
  }

  function FieldLines(hs: seq<Header>): string {
    if hs == [] then "" else hs[0].name + ":" + hs[0].value + "\r\n" + FieldLines(hs[1..])
  }

  /** Nothing more to take in: a line is not complete, or it is one without a colon. */
  ghost predicate Stops(rest: string) {
    OneLine(rest) || exists line: string, more: string :: rest == line + "\r\n" + more && OneLine(line) && ':' !in line
  }

  lemma FieldTaken(r: Request, h: Header, tail: string)
    requires IsField(h)
    ensures ParseHeaders(r, h.name + ":" + h.value + "\r\n" + tail)
      == ParseHeaders(r.(headers := r.headers[h.name := Trim(h.value)]), tail)
  {
    hide Find, FindCrlf, OneLine, Trim;
    var line := h.name + ":" + h.value;
    var text := line + "\r\n" + tail;
    LineEnds(line, tail);
    FindIs(h.name, ':', h.value);
    assert h.name + [':'] + h.value == line && line[..|h.name|] == h.name && line[|h.name| + 1..] == h.value;
    assert text[..|line|] == line && text[|line| + 2..] == tail;
  }

  lemma FieldsEnd(r: Request, rest: string)
    requires Stops(rest)
    ensures ParseHeaders(r, rest) == Parse(if OneLine(rest) then r else r.(state := GotAll), rest)
  {
    if OneLine(rest) {
      assert FindCrlf(rest) == |rest|;
    } else {
      var line: string, more: string :| rest == line + "\r\n" + more && OneLine(line) && ':' !in line;
      LineEnds(line, more);
      assert rest[..|line|] == line && CrlfAt(rest, |line|);
      FindNone(line, ':');
    }
  }

  /**
   * Any field lines, with or without a space behind the colon: each is taken in, with the outer spaces of its value
   * off; what does not belong to them is left, and a complete line without a colon ends the request.
   */
  lemma {:induction false} FieldBlock(r: Request, hs: seq<Header>, rest: string)
    requires (forall h :: h in hs ==> IsField(h)) && Stops(rest)
    ensures ParseHeaders(r, FieldLines(hs) + rest) ==
      Parse(r.(state := if OneLine(rest) then r.state else GotAll, headers := Collect(r.headers, hs)), rest)
    decreases |hs|
  {
    if hs == [] {
      assert FieldLines(hs) + rest == rest;
      FieldsEnd(r, rest);
    } else {
      hide ParseHeaders, IsField, Stops, OneLine;
      var tail := FieldLines(hs[1..]) + rest;
      assert FieldLines(hs) + rest == hs[0].name + ":" + hs[0].value + "\r\n" + tail;
      FieldTaken(r, hs[0], tail);
      FieldBlock(r.(headers := r.headers[hs[0].name := Trim(hs[0].value)]), hs[1..], rest);
    }
  }

  /** What is collected under a name is the last value for it, without its outer spaces. */
  lemma {:induction false} LastCounts(m: map<string, string>, hs: seq<Header>, i: nat)
    requires i < |hs| && forall j :: i < j < |hs| ==> hs[j].name != hs[i].name
    ensures hs[i].name in Collect(m, hs) && Collect(m, hs)[hs[i].name] == Trim(hs[i].value)
    decreases |hs|
  {
    var m1 := m[hs[0].name := Trim(hs[0].value)];
    if i == 0 { NotNamed(m1, hs[1..], hs[0].name); } else { LastCounts(m1, hs[1..], i - 1); }
  }

  lemma {:induction false} NotNamed(m: map<string, string>, hs: seq<Header>, name: string)
    requires forall h :: h in hs ==> h.name != name
    ensures name in Collect(m, hs) <==> name in m
    ensures name in m ==> Collect(m, hs)[name] == m[name]
    decreases |hs|
  {
    if hs != [] { NotNamed(m[hs[0].name := Trim(hs[0].value)], hs[1..], name); }
  }

  /** Trimming changes nothing exactly if there are no outer spaces. */
  lemma {:induction false} TrimmedAlready(s: string)
    ensures Trim(s) == s <==> (s == "" || (s[0] != ' ' && s[|s| - 1] != ' '))
  {
    TrimShorter(s);
  }

  lemma {:induction false} TrimShorter(s: string)
    ensures |TrimFront(s)| <= |s| && |TrimBack(s)| <= |s| && |Trim(s)| <= |TrimFront(s)|
    ensures s != [] && s[0] == ' ' ==> |TrimFront(s)| < |s|
    ensures s != [] && s[|s| - 1] == ' ' ==> |TrimBack(s)| < |s|
  {
    FrontShorter(s);
    BackShorter(s);
    BackShorter(TrimFront(s));
  }

  lemma {:induction false} FrontShorter(s: string)
    ensures |TrimFront(s)| <= |s| && (s != [] && s[0] == ' ' ==> |TrimFront(s)| < |s|)
  {
    if s != [] && s[0] == ' ' { FrontShorter(s[1..]); }
  }

  lemma {:induction false} BackShorter(s: string)
    ensures |TrimBack(s)| <= |s| && (s != [] && s[|s| - 1] == ' ' ==> |TrimBack(s)| < |s|)
  {
    if s != [] && s[|s| - 1] == ' ' { BackShorter(s[..|s| - 1]); }
  }

  predicate Spaces(s: string) {
    forall k :: 0 <= k < |s| ==> s[k] == ' '
  }

  /** Trimming takes off exactly the outer spaces. */
  lemma {:induction false} TrimExact(front: string, s: string, back: string)
    requires Spaces(front) && Spaces(back) && (s == "" || (s[0] != ' ' && s[|s| - 1] != ' '))
    ensures Trim(front + s + back) == s
  {
    if front != "" {
      assert (front + s + back)[1..] == front[1..] + s + back;
      TrimExact(front[1..], s, back);
    } else if s == "" {
      assert front + s + back == back;
      OnlySpaces(back);
    } else {
      assert front + s + back == s + back;
      TrimBackExact(s, back);
    }
  }

  lemma {:induction false} OnlySpaces(s: string)
    requires Spaces(s)
    ensures TrimFront(s) == ""
  {
    if s != "" { OnlySpaces(s[1..]); }
  }

  lemma {:induction false} TrimBackExact(s: string, back: string)
    requires Spaces(back) && s != "" && s[|s| - 1] != ' '
    ensures TrimBack(s + back) == s
  {
    if back == "" {
      assert s + back == s;
    } else {
      assert (s + back)[..|s + back| - 1] == s + back[..|back| - 1];
      TrimBackExact(s, back[..|back| - 1]);
    }
  }

  /** Two pieces make one line if no line end arises between them. */
  lemma JoinLine(a: string, b: string)
    requires OneLine(a) && OneLine(b)
    requires a == "" || a[|a| - 1] != '\r' || b == "" || b[0] != '\n'
    ensures OneLine(a + b)
  {
    forall k | 0 <= k < |a + b| ensures !CrlfAt(a + b, k) {
      if k < |a| { assert !CrlfAt(a, k); } else { assert !CrlfAt(b, k - |a|); }
    }
  }

  /** A piece of a line is a line. */
  lemma PartLine(s: string, i: nat, j: nat)
    requires OneLine(s) && i <= j <= |s|
    ensures OneLine(s[i..j])
  {
    forall k | 0 <= k < j - i ensures !CrlfAt(s[i..j], k) { assert !CrlfAt(s, i + k); }
  }

  /** The text before the first question mark, and the text behind it. */
  ghost predicate SplitsAs(target: string, path: string, query: string) {
    && '?' !in path
    && (if '?' in target then target == path + "?" + query else target == path && query == "")
  }

  lemma SplitOnce(target: string, path: string, query: string, path2: string, query2: string)
    requires SplitsAs(target, path, query) && SplitsAs(target, path2, query2)
    ensures path == path2 && query == query2
  {
    if '?' in target {
      FindIs(path, '?', query);
      FindIs(path2, '?', query2);
      assert path + ['?'] + query == target && path2 + ['?'] + query2 == target;
      assert path == target[..|path|] && query == target[|path| + 1..];
    }
  }

  /** Where the parser finds the end of the target and its question mark. */
  lemma TargetEnds(target: string, version: string)
    requires ' ' !in target && '?' !in version
    ensures var rest := target + " " + version;
      Find(rest, ' ') == |target| && rest[|target| + 1..] == version && rest[..|target|] == target
      && Find(rest, '?') == if '?' in target then Find(target, '?') else |rest|
  {
    hide Find;
    var rest := target + " " + version;
    assert rest == target + [' '] + version;
    FindIs(target, ' ', version);
    var q := Find(target, '?');
    FindAny(target, '?');
    if q < |target| {
      QuestionInTarget(target, version);
    } else {
      assert '?' !in " ";
      assert '?' !in rest;
      FindNone(rest, '?');
    }
  }

  lemma QuestionInTarget(target: string, version: string)
    requires Find(target, '?') < |target|
    ensures Find(target + " " + version, '?') == Find(target, '?')
  {
    hide Find;
    var q := Find(target, '?');
    var tail := target[q + 1..] + " " + version;
    assert target + " " + version == target[..q] + ['?'] + tail;
    FindIs(target[..q], '?', tail);
  }

  lemma Halves(target: string)
    ensures var q := Find(target, '?');
      if '?' in target then q < |target| && SplitsAs(target, target[..q], target[q + 1..]) else SplitsAs(target, target, "")
  {
    hide Find;
    FindAny(target, '?');
    var q := Find(target, '?');
    if q < |target| { CutAt(target, q); }
  }

  lemma CutAt(s: string, k: nat)
    requires k < |s|
    ensures s == s[..k] + [s[k]] + s[k + 1..]
  {
  }

  lemma TargetParses(r: Request, target: string, version: string)
    requires ' ' !in target && '?' !in version && r.query == ""
    ensures var rest := target + " " + version;
      && (Find(rest, '?') < Find(rest, ' ') || Find(rest, '?') == |rest|)
      && var p := ParseTarget(r, rest);
        p.ok == (VersionOf(version) != Unknown) && SplitsAs(target, p.request.path, p.request.query)
        && p.request == r.(version := if version == "" then r.version else VersionOf(version),
                           path := p.request.path, query := p.request.query)
  {
    assert VersionOf("") == Unknown;
    var rest := target + " " + version;
    TargetEnds(target, version);
    Halves(target);
    hide Find, SplitsAs, VersionOf;
    var q := Find(rest, '?');
    if '?' in target {
      assert rest[..q] == target[..q] && rest[q + 1..|target|] == target[q + 1..];
    }
  }

  /** After a known method the rest of the line is parsed. */
  lemma VerbFirst(r: Request, verb: string, rest: string)
    requires ' ' !in verb && MethodOf(verb) != Invalid
    ensures var line := verb + [' '] + rest;
      AfterMethod(line) == rest
      && (QueryInOrder(line) ==> ParseRequestLine(r, line) == ParseTarget(r.(verb := MethodOf(verb)), rest))
  {
    hide Find, MethodOf, ParseTarget;
    var line := verb + [' '] + rest;
    FindIs(verb, ' ', rest);
    assert line[..|verb|] == verb && line[|verb| + 1..] == rest;
  }

  /** A request line: what the parser makes of it. */
  lemma RequestLine(r: Request, verb: string, target: string, version: string)
    requires ' ' !in verb && MethodOf(verb) != Invalid && r.query == ""
    requires ' ' !in target && '?' !in version && VersionOf(version) != Unknown
    ensures var line := verb + " " + target + " " + version;
      QueryInOrder(line)
      && var p := ParseRequestLine(r, line);
        p.ok && SplitsAs(target, p.request.path, p.request.query)
        && p.request == r.(verb := MethodOf(verb), version := VersionOf(version), path := p.request.path, query := p.request.query)
  {
    var rest := target + " " + version;
    var line := verb + " " + target + " " + version;
    assert line == verb + [' '] + rest;
    assert version != "";
    TargetParses(r.(verb := MethodOf(verb)), target, version);
    VerbFirst(r, verb, rest);
    hide Find, SplitsAs, MethodOf, VersionOf, ParseTarget, ParseRequestLine, AfterMethod;
  }

  /** The request lines the parser takes: a method it knows, a target without spaces, a version it knows. */
  ghost predicate IsRequestLine(line: string, verb: string, target: string, version: string) {
    && line == verb + " " + target + " " + version
    && verb in {"GET", "POST", "PUT", "DELETE", "HEAD"} && ' ' !in target && version in {"HTTP/1.0", "HTTP/1.1"}
  }

  /** The words the parser knows, and what it makes of any other. */
  lemma Words(s: string)
    ensures MethodOf("GET") == Get && MethodOf("POST") == Post && MethodOf("PUT") == Put
    ensures MethodOf("DELETE") == Delete && MethodOf("HEAD") == Head
    ensures s !in {"GET", "POST", "PUT", "DELETE", "HEAD"} <==> MethodOf(s) == Invalid
    ensures VersionOf("HTTP/1.0") == Http10 && VersionOf("HTTP/1.1") == Http11
    ensures s !in {"HTTP/1.0", "HTTP/1.1"} <==> VersionOf(s) == Unknown
  {
  }

  lemma KnownWords(verb: string, version: string)
    ensures MethodOf(verb) != Invalid ==> ' ' !in verb
    ensures VersionOf(version) != Unknown ==> '?' !in version && version != ""
  {
  }

  lemma CutAtSpace(s: string)
    requires Find(s, ' ') < |s|
    ensures var k := Find(s, ' '); ' ' !in s[..k] && s == s[..k] + " " + s[k + 1..]
  {
    hide Find;
    CutAt(s, Find(s, ' '));
  }

  lemma BehindMethod(line: string)
    ensures Find(line, ' ') < |line| ==> AfterMethod(line) == line[Find(line, ' ') + 1..]
  {
    hide Find;
  }

  lemma Regroup(a: string, b: string, c: string)
    ensures a + " " + (b + " " + c) == a + " " + b + " " + c
  {
  }

  /** Where the pieces of a line are. */
  lemma LinePieces(line: string)
    requires Find(line, ' ') < |line| && Find(AfterMethod(line), ' ') < |AfterMethod(line)|
    ensures var v, rest := Find(line, ' '), AfterMethod(line);
      var t := Find(rest, ' ');
      line == line[..v] + " " + rest[..t] + " " + rest[t + 1..] && ' ' !in rest[..t]
  {
    hide Find, AfterMethod;
    var rest := AfterMethod(line);
    var t := Find(rest, ' ');
    CutAtSpace(line);
    BehindMethod(line);
    CutAtSpace(rest);
    Regroup(line[..Find(line, ' ')], rest[..t], rest[t + 1..]);
  }

  /** Exactly which request lines are accepted. */
  lemma LineAccepted(r: Request, line: string)
    requires QueryInOrder(line)
    ensures ParseRequestLine(r, line).ok <==> exists verb, target, version :: IsRequestLine(line, verb, target, version)
  {
    hide Find, MethodOf, VersionOf, IsRequestLine;
    if ParseRequestLine(r, line).ok {
      LinePieces(line);
      var rest := AfterMethod(line);
      var t := Find(rest, ' ');
      WordsInLine(line, line[..Find(line, ' ')], rest[..t], rest[t + 1..]);
    }
    if verb, target, version :| IsRequestLine(line, verb, target, version) {
      LineIsTaken(r, line, verb, target, version);
    }
  }

  lemma WordsInLine(line: string, verb: string, target: string, version: string)
    requires line == verb + " " + target + " " + version && ' ' !in target
    requires MethodOf(verb) != Invalid && VersionOf(version) != Unknown
    ensures IsRequestLine(line, verb, target, version)
  {
    hide MethodOf, VersionOf;
    Words(verb);
    Words(version);
  }

  lemma LineIsTaken(r: Request, line: string, verb: string, target: string, version: string)
    requires QueryInOrder(line) && IsRequestLine(line, verb, target, version)
    ensures ParseRequestLine(r, line).ok
  {
    hide Find, MethodOf, VersionOf, ParseRequestLine, AfterMethod;
    Words(verb);
    Words(version);
    KnownWords(verb, version);
    var rest := target + " " + version;
    assert line == verb + [' '] + rest;
    VerbFirst(r, verb, rest);
    TargetEnds(target, version);
  }

  /** How far a line that is not accepted gets: nothing, an unknown method, a method alone, an unknown version. */
  lemma LineRefused(r: Request, verb: string, rest: string)
    requires ' ' !in verb
    ensures QueryInOrder(verb) && ParseRequestLine(r, verb) == Line(false, r)
    ensures verb !in {"GET", "POST", "PUT", "DELETE", "HEAD"} && QueryInOrder(verb + " " + rest) ==>
      ParseRequestLine(r, verb + " " + rest) == Line(false, r.(verb := Invalid))
    ensures verb in {"GET", "POST", "PUT", "DELETE", "HEAD"} && ' ' !in rest ==>
      QueryInOrder(verb + " " + rest) && ParseRequestLine(r, verb + " " + rest) == Line(false, r.(verb := MethodOf(verb)))
  {
    hide Find, MethodOf;
    Words(verb);
    FindNone(verb, ' ');
    FindIs(verb, ' ', rest);
    var line := verb + [' '] + rest;
    assert verb + " " + rest == line && line[..|verb|] == verb && line[|verb| + 1..] == rest;
    if ' ' !in rest { FindNone(rest, ' '); }
  }

  lemma VersionRefused(r: Request, verb: string, target: string, version: string)
    requires verb in {"GET", "POST", "PUT", "DELETE", "HEAD"} && ' ' !in target && '?' !in version && r.query == ""
    requires version !in {"HTTP/1.0", "HTTP/1.1"}
    ensures var line := verb + " " + target + " " + version;
      QueryInOrder(line)
      && var p := ParseRequestLine(r, line);
        !p.ok && SplitsAs(target, p.request.path, p.request.query)
        && p.request == r.(verb := MethodOf(verb), version := if version == "" then r.version else Unknown,
                           path := p.request.path, query := p.request.query)
  {
    hide Find, SplitsAs, MethodOf, VersionOf, ParseTarget, ParseRequestLine, AfterMethod;
    var rest := target + " " + version;
    var line := verb + " " + target + " " + version;
    assert line == verb + [' '] + rest;
    Words(verb);
    Words(version);
    KnownWords(verb, version);
    TargetParses(r.(verb := MethodOf(verb)), target, version);
    VerbFirst(r, verb, rest);
    QuestionEarly(line, rest);
  }

  lemma QuestionEarly(line: string, rest: string)
    requires AfterMethod(line) == rest
    ensures QueryInOrder(line) <==> Find(rest, '?') < Find(rest, ' ') || Find(rest, '?') == |rest| || Find(rest, ' ') == |rest|
  {
    hide Find, AfterMethod;
  }

  /**
   * A message from its first line on: a line that is accepted is followed by its headers; one that is not is used up,
   * and headers are expected all the same. After the headers whatever comes is thrown away.
   */
  lemma MessageRead(r: Request, line: string, rest: string)
    requires OneLine(line) && QueryInOrder(line)
    ensures r.state == ExpectRequestLine ==>
      && Delivered(r, line + "\r\n" + rest)
      && var l := ParseRequestLine(r, line);
        ParseMessage(r, line + "\r\n" + rest) ==
          if l.ok then ParseHeaders(l.request.(state := ExpectHeaders), rest) else Parse(l.request.(state := ExpectHeaders), rest)
    ensures r.state == ExpectHeaders ==> ParseMessage(r, rest) == ParseHeaders(r, rest)
    ensures r.state == ExpectBody || r.state == GotAll ==> ParseMessage(r, rest) == Parse(r.(state := GotAll), "")
  {
    hide ParseRequestLine, ParseHeaders, FindCrlf, QueryInOrder, OneLine;
    var text := line + "\r\n" + rest;
    LineEnds(line, rest);
    assert text[..|line|] == line && text[|line| + 2..] == rest;
  }
}
