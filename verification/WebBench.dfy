/** The benchmark's request printer, and what the server's parser makes of its output. */
module WebBench {
  import opened HttpText

  datatype Verb = GET | HEAD | OPTIONS | TRACE

  /** `http10` is 0, 1 or 2 for versions 0.9, 1.0 and 1.1. */
  datatype Config = Config(verb: Verb, http10: int, keepAlive: bool, forceReload: bool, proxied: bool)

  /** A URL is refused for the first of these reasons that applies. */
  datatype Outcome = Built | NotValid | TooLong | OnlyHttp | NoSlash

  const URL_SIZE: nat := 1500
  const AGENT: string := "WebBench 1.5"

  function VerbName(v: Verb): string {
    match v
    case GET => "GET"
    case HEAD => "HEAD"
    case OPTIONS => "OPTIONS"
    case TRACE => "TRACE"
  }

  /** Some methods and the reload option need a newer version than was asked for. */
  function Adjusted(c: Config): int {
    var h := if c.forceReload && c.proxied && c.http10 < 1 then 1 else c.http10;
    if c.verb == HEAD && h < 1 then 1
    else if (c.verb == OPTIONS || c.verb == TRACE) && h < 2 then 2
    else h
  }

  predicate SchemeAt(url: string, k: nat) {
    k + 3 <= |url| && url[k] == ':' && url[k + 1] == '/' && url[k + 2] == '/'
  }

  /** Index of the first "://", or the length. */
  function SchemeEnd(url: string): (k: nat)
    ensures k <= |url| && (k < |url| ==> SchemeAt(url, k)) && forall j :: 0 <= j < k ==> !SchemeAt(url, j)
  {
    if url == "" || SchemeAt(url, 0) then 0 else
      var k := 1 + SchemeEnd(url[1..]);
      assert forall j :: 0 < j < k ==> (SchemeAt(url, j) <==> SchemeAt(url[1..], j - 1));
      k
  }

  function Lower(c: char): char {
    if 'A' <= c <= 'Z' then (c as int + 32) as char else c
  }

  /** The scheme in any case. */
  predicate IsHttp(url: string) {
    |url| >= 7 && Lower(url[0]) == 'h' && Lower(url[1]) == 't' && Lower(url[2]) == 't' && Lower(url[3]) == 'p'
    && url[4] == ':' && url[5] == '/' && url[6] == '/'
  }

  function Check(url: string): Outcome {
    if SchemeEnd(url) == |url| then NotValid
    else if |url| > URL_SIZE then TooLong
    else if !IsHttp(url) then OnlyHttp
    else if '/' !in url[SchemeEnd(url) + 3..] then NoSlash
    else Built
  }

  /** What follows the scheme: a host, perhaps a port, and from the first slash on the target. */
  function HostOf(after: string): string {
    var colon, slash := Find(after, ':'), Find(after, '/');
    if colon < slash then after[..colon] else after[..slash]
  }

  function TargetOf(after: string): string {
    after[Find(after, '/')..]
  }

  function VersionText(h: int): string {
    if h == 1 then " HTTP/1.0" else if h == 2 then " HTTP/1.1" else ""
  }

  function Headers(c: Config, h: int, host: string): seq<Header> {
    (if h > 0 then [Header("User-Agent", AGENT)] else [])
    + (if !c.proxied && h > 0 then [Header("Host", host)] else [])
    + (if c.forceReload && c.proxied then [Header("Pragma", "no-cache")] else [])
    + (if h > 1 then [Header("Connection", if c.keepAlive then "Keep-Alive" else "close")] else [])
  }

  function RequestHead(c: Config, url: string): string
    requires Check(url) == Built
  {
    VerbName(c.verb) + " " + (if c.proxied then url else TargetOf(url[SchemeEnd(url) + 3..])) + VersionText(Adjusted(c))
  }

  function RequestText(c: Config, url: string): string
    requires Check(url) == Built
  {
    var h, after := Adjusted(c), url[SchemeEnd(url) + 3..];
    RequestHead(c, url) + CRLF + PrintHeaders(Headers(c, h, HostOf(after))) + (if h > 0 then CRLF else "")
  }

  class WebBench {
    var verb: Verb
    var http10: int
    const keepAlive: bool
    const forceReload: bool
    const proxied: bool
    var host: string
    var request: string

    constructor (c: Config)
      ensures Settings() == c
    {
      verb, http10, keepAlive, forceReload, proxied := c.verb, c.http10, c.keepAlive, c.forceReload, c.proxied;
      host, request := "", "";
    }

    function Settings(): Config
      reads this
    {
      Config(verb, http10, keepAlive, forceReload, proxied)
    }

    method BuildRequest(url: string) returns (outcome: Outcome)
      modifies this
      ensures outcome == Check(url)
      ensures outcome == Built ==> request == RequestText(old(Settings()), url)
      ensures Settings() == old(Settings()).(http10 := Adjusted(old(Settings())))
    {
      hide Adjusted, SchemeEnd, IsHttp, VerbName, HostOf, TargetOf, Headers, PrintHeaders, Find;
      ghost var c := Settings();
      host, request := "", "";
      RaiseVersion();
      HeadersAdjusted(c);
      request := VerbName(verb) + " ";
      var i := SchemeEnd(url);
      if i == |url| { return NotValid; }
      if |url| > URL_SIZE { return TooLong; }
      if !IsHttp(url) { return OnlyHttp; }
      var after := url[i + 3..];
      if '/' !in after { return NoSlash; }
      AddTarget(c, url);
      hide RequestHead;
      request := request + CRLF;
      AddHeaders(HostOf(after));
      assert request + "" == request;
      if http10 > 0 { request := request + CRLF; }
      outcome := Built;
    }

    /** The rest of the request line: where to, and in which version. */
    method AddTarget(ghost c: Config, url: string)
      requires Check(url) == Built && http10 == Adjusted(c) && proxied == c.proxied && request == VerbName(c.verb) + " "
      modifies this`host, this`request
      ensures request == RequestHead(c, url) && (proxied || host == HostOf(url[SchemeEnd(url) + 3..]))
    {
      hide Adjusted, SchemeEnd, IsHttp, VerbName, HostOf, TargetOf;
      if proxied {
        request := request + url;
      } else {
        TakeHost(url[SchemeEnd(url) + 3..]);
      }
      assert request + "" == request;
      if http10 == 1 {
        request := request + " HTTP/1.0";
      } else if http10 == 2 {
        request := request + " HTTP/1.1";
      }
    }

    method RaiseVersion()
      modifies this`http10
      ensures http10 == Adjusted(old(Settings()))
    {
      if forceReload && proxied && http10 < 1 { http10 := 1; }
      if verb == HEAD && http10 < 1 { http10 := 1; }
      if verb == OPTIONS && http10 < 2 { http10 := 2; }
      if verb == TRACE && http10 < 2 { http10 := 2; }
    }

    /** The host ends at its port or at the target. */
    method TakeHost(after: string)
      modifies this`host, this`request
      ensures host == HostOf(after) && request == old(request) + TargetOf(after)
    {
      hide Find;
      if Find(after, ':') < Find(after, '/') {
        host := after[..Find(after, ':')];
      } else {
        host := after[..Find(after, '/')];
      }
      request := request + after[Find(after, '/')..];
    }

    method AddHeader(name: string, value: string, ghost start: string, ghost before: seq<Header>)
      requires request == start + PrintHeaders(before)
      modifies this`request
      ensures request == start + PrintHeaders(before + [Header(name, value)])
    {
      PrintLast(start, before, name, value);
      request := request + name;
      request := request + ": ";
      request := request + value;
      request := request + CRLF;
    }

    method AddHeaders(ghost expected: string)
      requires proxied || host == expected
      modifies this`request
      ensures request == old(request) + PrintHeaders(Headers(Settings(), http10, expected))
    {
      hide PrintHeaders;
      ghost var start, a, b, c, d := request, [], [], [], [];
      NoHeaders();
      if http10 > 0 {
        AddHeader("User-Agent", AGENT, start, []);
        a := [Header("User-Agent", AGENT)];
      }
      if !proxied && http10 > 0 {
        AddHeader("Host", host, start, a);
        b := [Header("Host", host)];
      }
      if forceReload && proxied {
        AddHeader("Pragma", "no-cache", start, a + b);
        c := [Header("Pragma", "no-cache")];
      }
      if http10 > 1 {
        AddHeader("Connection", if keepAlive then "Keep-Alive" else "close", start, a + b + c);
        d := [Header("Connection", if keepAlive then "Keep-Alive" else "close")];
      }
    }
  }

  lemma PrintLast(start: string, before: seq<Header>, name: string, value: string)
    ensures start + PrintHeaders(before + [Header(name, value)])
      == start + PrintHeaders(before) + name + ": " + value + CRLF
  {
    PrintMore(before, [Header(name, value)]);
    PrintOne(name, value);
  }

  lemma HeadersAdjusted(c: Config)
    ensures forall h: int, host: string :: Headers(c.(http10 := Adjusted(c)), h, host) == Headers(c, h, host)
  {
  }

  lemma NoHeaders()
    ensures PrintHeaders([]) == "" && forall hs: seq<Header> :: hs + [] == hs && [] + hs == hs
  {
  }

  // ----- what is refused and what is printed, in words -----

  /** The version used is the lowest one that is asked for and that every option can do with. */
  lemma LowestVersion(c: Config, h: int)
    ensures Adjusted(c) <= h <==>
      && c.http10 <= h && (c.verb == HEAD ==> 1 <= h) && (c.verb == OPTIONS || c.verb == TRACE ==> 2 <= h)
      && (c.forceReload && c.proxied ==> 1 <= h)
  {
  }

  lemma SchemeFound(url: string)
    ensures SchemeEnd(url) < |url| <==> exists a: string, b: string :: url == a + "://" + b
  {
    hide SchemeEnd, SchemeAt;
    if SchemeEnd(url) < |url| { SchemeThere(url, SchemeEnd(url)); }
    if a: string, b: string :| url == a + "://" + b { SchemeHere(a, b); }
  }

  lemma SchemeThere(url: string, k: nat)
    requires SchemeAt(url, k)
    ensures url == url[..k] + "://" + url[k + 3..]
  {
    assert url[k..k + 3] == "://";
  }

  lemma SchemeHere(a: string, b: string)
    ensures SchemeEnd(a + "://" + b) < |a + "://" + b|
  {
    hide SchemeEnd;
    var url := a + "://" + b;
    assert SchemeAt(url, |a|);
  }

  lemma HttpIs(url: string)
    ensures IsHttp(url) <==> |url| >= 7 && url[0] in "hH" && url[1] in "tT" && url[2] in "tT" && url[3] in "pP" && url[4..7] == "://"
  {
    forall c: char ensures Lower(c) == 'h' <==> c in "hH" { LowerIs(c, 'h', 'H'); }
    forall c: char ensures Lower(c) == 't' <==> c in "tT" { LowerIs(c, 't', 'T'); }
    forall c: char ensures Lower(c) == 'p' <==> c in "pP" { LowerIs(c, 'p', 'P'); }
    hide Lower;
    if |url| >= 7 { assert url[4..7] == [url[4], url[5], url[6]]; }
  }

  lemma LowerIs(c: char, small: char, big: char)
    requires 'a' <= small <= 'z' && 'A' <= big <= 'Z' && small as int == big as int + 32
    ensures Lower(c) == small <==> c in [small, big]
  {
  }

  lemma HttpScheme(url: string)
    requires IsHttp(url)
    ensures SchemeEnd(url) == 4
  {
    assert SchemeAt(url, 4);
    assert forall j :: 0 <= j < 4 ==> url[j] != ':';
  }

  /** Which URLs are refused, and for what. */
  lemma RefusedFor(url: string)
    ensures var delimited := exists a: string, b: string :: url == a + "://" + b;
      var http := |url| >= 7 && url[0] in "hH" && url[1] in "tT" && url[2] in "tT" && url[3] in "pP" && url[4..7] == "://";
      Check(url) ==
        if !delimited then NotValid else if |url| > 1500 then TooLong else if !http then OnlyHttp
        else if '/' !in url[7..] then NoSlash else Built
  {
    hide SchemeEnd, IsHttp;
    SchemeFound(url);
    HttpIs(url);
    if IsHttp(url) { HttpScheme(url); }
  }

  lemma PartsAfter(after: string, host: string, port: string, target: string)
    requires after == host + port + target && '/' !in host + port && ':' !in host
    requires (port == "" || port[0] == ':') && target != "" && target[0] == '/'
    ensures HostOf(after) == host && TargetOf(after) == target
  {
    hide Find;
    assert after == (host + port) + ['/'] + target[1..];
    FindIs(host + port, '/', target[1..]);
    assert after[..|host|] == host && after[|host + port|..] == target;
    if port != "" {
      assert after == host + [':'] + (port[1..] + target);
      FindIs(host, ':', port[1..] + target);
    } else {
      NoColonBefore(after, |host|);
    }
  }

  lemma NoColonBefore(s: string, n: nat)
    requires n <= |s| && ':' !in s[..n]
    ensures Find(s, ':') >= n
  {
    hide Find;
    assert forall j :: 0 <= j < n ==> s[j] in s[..n];
  }

  lemma HeaderText(c: Config, h: int, host: string)
    ensures PrintHeaders(Headers(c, h, host)) ==
      (if h > 0 then "User-Agent" + ": " + AGENT + CRLF else "")
      + (if !c.proxied && h > 0 then "Host" + ": " + host + CRLF else "")
      + (if c.forceReload && c.proxied then "Pragma" + ": " + "no-cache" + CRLF else "")
      + (if h > 1 then "Connection" + ": " + (if c.keepAlive then "Keep-Alive" else "close") + CRLF else "")
  {
    hide PrintHeaders;
    NoHeaders();
    var a := if h > 0 then [Header("User-Agent", AGENT)] else [];
    var b := if !c.proxied && h > 0 then [Header("Host", host)] else [];
    var d := if c.forceReload && c.proxied then [Header("Pragma", "no-cache")] else [];
    var e := if h > 1 then [Header("Connection", if c.keepAlive then "Keep-Alive" else "close")] else [];
    PrintMore(a + b + d, e);
    PrintMore(a + b, d);
    PrintMore(a, b);
    PrintOne("User-Agent", AGENT);
    PrintOne("Host", host);
    PrintOne("Pragma", "no-cache");
    PrintOne("Connection", if c.keepAlive then "Keep-Alive" else "close");
  }

  lemma HeaderWords(host: string)
    ensures "User-Agent" + ": " + AGENT + CRLF == "User-Agent: WebBench 1.5\r\n"
    ensures "Host" + ": " + host + CRLF == "Host: " + host + "\r\n"
    ensures "Pragma" + ": " + "no-cache" + CRLF == "Pragma: no-cache\r\n"
    ensures "Connection" + ": " + "Keep-Alive" + CRLF == "Connection: Keep-Alive\r\n"
    ensures "Connection" + ": " + "close" + CRLF == "Connection: close\r\n"
  {
  }

  /** The whole request for a URL made of a scheme, a host, perhaps a port, and a target. */
  lemma RequestIs(c: Config, url: string, host: string, port: string, target: string)
    requires Check(url) == Built && url == url[..7] + host + port + target && '/' !in host + port && ':' !in host
    requires (port == "" || port[0] == ':') && target != "" && target[0] == '/'
    ensures var h := Adjusted(c);
      RequestText(c, url) ==
        ((if c.verb == GET then "GET" else if c.verb == HEAD then "HEAD" else if c.verb == OPTIONS then "OPTIONS" else "TRACE")
         + " " + (if c.proxied then url else target) + (if h == 1 then " HTTP/1.0" else if h == 2 then " HTTP/1.1" else ""))
        + "\r\n"
        + ((if h > 0 then "User-Agent: WebBench 1.5\r\n" else "")
           + (if !c.proxied && h > 0 then "Host: " + host + "\r\n" else "")
           + (if c.forceReload && c.proxied then "Pragma: no-cache\r\n" else "")
           + (if h > 1 then (if c.keepAlive then "Connection: Keep-Alive\r\n" else "Connection: close\r\n") else ""))
        + (if h > 0 then "\r\n" else "")
  {
    hide SchemeEnd, IsHttp, Adjusted, HostOf, TargetOf, Headers, PrintHeaders;
    HttpScheme(url);
    var after := url[7..];
    assert after == host + port + target;
    PartsAfter(after, host, port, target);
    HeaderText(c, Adjusted(c), host);
    HeaderWords(host);
  }
}
