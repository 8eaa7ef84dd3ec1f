/** Requests and responses across both programs: what is printed is what is parsed, and what the server makes of it. */
module HttpProofs {
  import opened HttpText
  import opened WebBench
  import opened HttpResponse
  import opened HttpServer
  import opened HttpRequest
  import ConnectionModel
  import LogStream

  // ----- what a printed request parses to -----

  /** A direct request in version 1.0 or 1.1 with a method that both sides know, for a URL without a line end. */
  ghost predicate Usual(c: Config, url: string) {
    && (c.verb == GET || c.verb == HEAD) && !c.proxied && (Adjusted(c) == 1 || Adjusted(c) == 2)
    && Check(url) == Built && OneLine(url)
  }

  function After(url: string): string
    requires Check(url) == Built
  {
    url[SchemeEnd(url) + 3..]
  }

  function VersionName(h: int): string {
    if h == 1 then "HTTP/1.0" else "HTTP/1.1"
  }

  function VerbOf(v: Verb): Method {
    if v == GET then Get else if v == HEAD then Head else Invalid
  }

  /** The headers the server is meant to see. */
  function Sent(c: Config, url: string): map<string, string>
    requires Check(url) == Built
  {
    var m := map["User-Agent" := AGENT, "Host" := HostOf(After(url))];
    if Adjusted(c) == 2 then m["Connection" := if c.keepAlive then "Keep-Alive" else "close"] else m
  }

  /** The first "://" of an accepted URL is the one after "http". */
  lemma SchemeIsHttp(url: string)
    requires Check(url) == Built
    ensures SchemeEnd(url) == 4 && After(url) == url[7..]
  {
    HttpScheme(url);
  }

  /** Host and target divide what follows the scheme, perhaps with a port between them. */
  lemma HostAndTarget(after: string)
    requires '/' in after
    ensures var port := after[|HostOf(after)|..|after| - |TargetOf(after)|];
      && after == HostOf(after) + port + TargetOf(after)
      && '/' !in HostOf(after) && '/' !in port && ':' !in HostOf(after) && (port == "" || port[0] == ':')
      && TargetOf(after) != "" && TargetOf(after)[0] == '/'
  {
    hide Find;
    var colon, slash := Find(after, ':'), Find(after, '/');
    FindAny(after, '/');
    FindAny(after, ':');
    if colon < slash {
      assert after[..colon] == after[..slash][..colon];
      assert forall k :: 0 <= k < slash ==> after[k] == after[..slash][k];
      assert ':' !in after[..colon];
    } else {
      assert after[..slash] == after[..colon][..slash];
      assert forall k :: 0 <= k < slash ==> after[k] == after[..colon][k];
    }
  }

  lemma HeadOfRequest(c: Config, url: string)
    requires Usual(c, url)
    ensures RequestHead(c, url) == VerbName(c.verb) + " " + TargetOf(After(url)) + " " + VersionName(Adjusted(c))
  {
    hide TargetOf, Adjusted;
  }

  lemma HeadIsLine(c: Config, url: string)
    requires Usual(c, url)
    ensures OneLine(RequestHead(c, url))
  {
    hide TargetOf, Adjusted, RequestHead, OneLine, Check;
    HeadOfRequest(c, url);
    var target := TargetOf(After(url));
    TargetIsPart(url);
    WordLines(c.verb, Adjusted(c));
    LineAround(VerbName(c.verb), target, VersionName(Adjusted(c)));
  }

  lemma WordLines(v: Verb, h: int)
    ensures OneLine(VerbName(v) + " ") && OneLine(" " + VersionName(h))
  {
  }

  lemma LineAround(a: string, b: string, c: string)
    requires OneLine(a + " ") && OneLine(b) && OneLine(" " + c)
    ensures OneLine(a + " " + b + " " + c)
  {
    hide OneLine;
    assert (a + " ")[|a|] == ' ';
    JoinLine(a + " ", b);
    JoinLine(a + " " + b, " " + c);
    assert a + " " + b + (" " + c) == a + " " + b + " " + c;
  }

  lemma PartLacks(s: string, c: char, i: nat, j: nat)
    requires c !in s && i <= j <= |s|
    ensures c !in s[i..j]
  {
  }

  lemma Slices(after: string)
    ensures |HostOf(after)| <= |after| && HostOf(after) == after[0..|HostOf(after)|]
    ensures |TargetOf(after)| <= |after| && TargetOf(after) == after[|after| - |TargetOf(after)|..|after|]
  {
    hide Find;
  }

  lemma PartsOf(after: string)
    requires '/' in after && OneLine(after)
    ensures OneLine(TargetOf(after)) && OneLine(HostOf(after))
    ensures TargetOf(after) != "" && TargetOf(after)[0] == '/' && '/' !in HostOf(after)
    ensures ' ' !in after ==> ' ' !in HostOf(after) && ' ' !in TargetOf(after)
  {
    hide HostOf, TargetOf, OneLine;
    HostAndTarget(after);
    Slices(after);
    var h, t := |HostOf(after)|, |after| - |TargetOf(after)|;
    PartLine(after, 0, h);
    PartLine(after, t, |after|);
    if ' ' !in after {
      PartLacks(after, ' ', 0, h);
      PartLacks(after, ' ', t, |after|);
    }
  }

  /** Host and target are stretches of the URL. */
  lemma TargetIsPart(url: string)
    requires Check(url) == Built && OneLine(url)
    ensures OneLine(TargetOf(After(url))) && OneLine(HostOf(After(url)))
    ensures TargetOf(After(url)) != "" && TargetOf(After(url))[0] == '/'
    ensures ' ' !in url ==> ' ' !in HostOf(After(url)) && ' ' !in TargetOf(After(url))
  {
    hide SchemeEnd, OneLine, HostOf, TargetOf;
    var i := SchemeEnd(url) + 3;
    assert After(url) == url[i..|url|];
    PartLine(url, i, |url|);
    if ' ' !in url { PartLacks(url, ' ', i, |url|); }
    PartsOf(After(url));
  }

  /** The headers of a usual request. */
  function UsualHeaders(c: Config, host: string): seq<Header> {
    [Header("User-Agent", AGENT), Header("Host", host)]
    + if Adjusted(c) == 2 then [Header("Connection", if c.keepAlive then "Keep-Alive" else "close")] else []
  }

  lemma HeadersPrintable(c: Config, host: string)
    requires OneLine(host)
    ensures forall h :: h in UsualHeaders(c, host) ==> Printable(h)
  {
    hide Adjusted, OneLine;
    LiteralLines();
    JoinHost(host);
  }

  lemma JoinHost(host: string)
    requires OneLine(host)
    ensures OneLine("Host" + ": " + host)
  {
    assert OneLine("Host: ");
    JoinLine("Host: ", host);
    assert "Host" + ": " + host == "Host: " + host;
  }

  lemma LiteralLines()
    ensures OneLine("User-Agent" + ": " + AGENT)
    ensures OneLine("Connection" + ": " + "Keep-Alive") && OneLine("Connection" + ": " + "close")
  {
  }

  lemma HeadersCollected(c: Config, host: string)
    requires ' ' !in host
    ensures Collect(map[], UsualHeaders(c, host)) ==
      (var m := map["User-Agent" := AGENT, "Host" := host];
       if Adjusted(c) == 2 then m["Connection" := if c.keepAlive then "Keep-Alive" else "close"] else m)
  {
    hide Adjusted, Trim, Collect;
    TrimmedAlready(AGENT);
    TrimmedAlready(host);
    TrimmedAlready("Keep-Alive");
    TrimmedAlready("close");
    var m1 := map["User-Agent" := AGENT];
    var m2 := m1["Host" := host];
    var last := if Adjusted(c) == 2 then [Header("Connection", if c.keepAlive then "Keep-Alive" else "close")] else [];
    assert UsualHeaders(c, host) == [Header("User-Agent", AGENT)] + ([Header("Host", host)] + last);
    CollectOne(map[], Header("User-Agent", AGENT), [Header("Host", host)] + last);
    CollectOne(m1, Header("Host", host), last);
    if Adjusted(c) == 2 {
      assert last == [last[0]] + [];
      CollectOne(m2, last[0], []);
    }
    CollectNone(m2);
  }

  lemma CollectOne(m: map<string, string>, h: Header, rest: seq<Header>)
    ensures Collect(m, [h] + rest) == Collect(m[h.name := Trim(h.value)], rest)
  {
    hide Trim;
    assert ([h] + rest)[1..] == rest;
  }

  lemma CollectNone(m: map<string, string>)
    ensures forall n: map<string, string> :: Collect(n, []) == n
  {
  }

  /** The printed request, cut into its first line, its headers and the empty line. */
  lemma TextParts(c: Config, url: string)
    requires Usual(c, url)
    ensures RequestText(c, url) == RequestHead(c, url) + CRLF + PrintHeaders(UsualHeaders(c, HostOf(After(url)))) + CRLF
  {
    hide RequestHead, HostOf, PrintHeaders, Adjusted, Check;
    assert Headers(c, Adjusted(c), HostOf(After(url))) == UsualHeaders(c, HostOf(After(url)));
  }

  /**
   * Round trip: for every accepted URL without spaces the server's parser gets from the benchmark's request its
   * method, version, path, query and headers, and leaves the final CRLF, and what follows it, unread.
   */
  lemma RequestRoundTrip(c: Config, url: string, rest: string)
    requires Usual(c, url) && ' ' !in url
    ensures Delivered(BLANK, RequestText(c, url) + rest)
    ensures var p := ParseMessage(BLANK, RequestText(c, url) + rest);
      && p.rest == CRLF + rest
      && p.request == Request(GotAll, VerbOf(c.verb), VersionOf(VersionName(Adjusted(c))),
                              p.request.path, p.request.query, Sent(c, url))
      && SplitsAs(TargetOf(After(url)), p.request.path, p.request.query)
  {
    hide RequestText, RequestHead, HostOf, TargetOf, PrintHeaders, Adjusted, Check, OneLine, FindCrlf, Find, Printable,
         HttpText.ParseRequestLine, ParseHeaders, Collect, SplitsAs, After;
    var head, target := RequestHead(c, url), TargetOf(After(url));
    var hs, version := UsualHeaders(c, HostOf(After(url))), VersionName(Adjusted(c));
    TextParts(c, url);
    TargetIsPart(url);
    HeadIsLine(c, url);
    HeadOfRequest(c, url);
    var tail := PrintHeaders(hs) + CRLF + rest;
    var text := RequestText(c, url) + rest;
    assert text == head + CRLF + tail;
    LineEnds(head, tail);
    assert text[..|head|] == head && text[|head| + 2..] == tail;
    VerbParses(c.verb);
    VersionParses(Adjusted(c));
    RequestLine(BLANK, VerbName(c.verb), target, version);
    var line := HttpText.ParseRequestLine(BLANK, head).request;
    HeadersPrintable(c, HostOf(After(url)));
    HeaderRoundTrip(line.(state := ExpectHeaders), hs, rest);
    HeadersCollected(c, HostOf(After(url)));
  }

  lemma VerbParses(v: Verb)
    requires v == GET || v == HEAD
    ensures ' ' !in VerbName(v) && MethodOf(VerbName(v)) == VerbOf(v) != Invalid
  {
  }

  lemma VersionParses(h: int)
    ensures ' ' !in VersionName(h) && '?' !in VersionName(h) && VersionOf(VersionName(h)) == if h == 1 then Http10 else Http11
  {
  }

  lemma LongVersion(r: Request, rest: string)
    requires Find(rest, '?') < Find(rest, ' ') || Find(rest, '?') == |rest| || Find(rest, ' ') == |rest|
    requires |rest| - Find(rest, ' ') > 9
    ensures !ParseTarget(r, rest).ok
  {
    hide Find;
  }

  lemma FirstSpace(target: string, version: string)
    requires ' ' in target && |version| == 8
    ensures var rest := target + " " + version; |rest| - Find(rest, ' ') > 9
  {
    hide Find;
    var k := Find(target, ' ');
    FindAny(target, ' ');
    var other := target[k + 1..] + " " + version;
    assert target + " " + version == target[..k] + [' '] + other;
    FindIs(target[..k], ' ', other);
  }

  /** With a space in the target, the rest of it is taken for the version. */
  lemma SpaceInTarget(r: Request, verb: string, target: string, version: string)
    requires ' ' !in verb && MethodOf(verb) != Invalid && |version| == 8 && ' ' in target
    requires QueryInOrder(verb + " " + target + " " + version)
    ensures !HttpText.ParseRequestLine(r, verb + " " + target + " " + version).ok
  {
    hide Find, ParseTarget, MethodOf, AfterMethod, HttpText.ParseRequestLine;
    var rest := target + " " + version;
    assert verb + " " + target + " " + version == verb + [' '] + rest;
    VerbFirst(r, verb, rest);
    FirstSpace(target, version);
    LongVersion(r.(verb := MethodOf(verb)), rest);
  }

  /** Exactly which usual requests are understood: those without a space in the target. */
  lemma Understood(c: Config, url: string, rest: string)
    requires Usual(c, url) && Delivered(BLANK, RequestText(c, url) + rest)
    ensures ParseMessage(BLANK, RequestText(c, url) + rest).request.state == GotAll <==> ' ' !in TargetOf(After(url))
  {
    hide RequestText, RequestHead, HostOf, TargetOf, PrintHeaders, Adjusted, Check, OneLine, FindCrlf, Find, Printable,
         HttpText.ParseRequestLine, ParseHeaders, Collect, SplitsAs, After, QueryInOrder;
    var head, target := RequestHead(c, url), TargetOf(After(url));
    var hs, version := UsualHeaders(c, HostOf(After(url))), VersionName(Adjusted(c));
    TextParts(c, url);
    TargetIsPart(url);
    HeadIsLine(c, url);
    HeadOfRequest(c, url);
    var tail := PrintHeaders(hs) + CRLF + rest;
    var text := RequestText(c, url) + rest;
    assert text == head + CRLF + tail;
    LineEnds(head, tail);
    assert text[..|head|] == head && text[|head| + 2..] == tail;
    VerbParses(c.verb);
    VersionParses(Adjusted(c));
    if ' ' in target {
      SpaceInTarget(BLANK, VerbName(c.verb), target, version);
    } else {
      RequestLine(BLANK, VerbName(c.verb), target, version);
      var line := HttpText.ParseRequestLine(BLANK, head).request;
      HeadersPrintable(c, HostOf(After(url)));
      HeaderRoundTrip(line.(state := ExpectHeaders), hs, rest);
    }
  }

  // ----- what the server does with it -----

  /** The whole answer, in words. */
  lemma ReplyIs(keep: bool)
    ensures ReplyText(keep) ==
      "HTTP/1.1 200 OK\r\n" + (if keep then "Connection: Keep-Alive\r\n" else "Connection: close\r\n") + "\r\n"
  {
    hide StatusLine, PrintHeaders;
    Code200();
    PrintOne("Connection", if keep then "Keep-Alive" else "close");
    ConnectionLines();
  }

  lemma ConnectionLines()
    ensures "Connection" + ": " + "Keep-Alive" + CRLF == "Connection: Keep-Alive\r\n"
    ensures "Connection" + ": " + "close" + CRLF == "Connection: close\r\n"
  {
  }

  lemma Code200()
    ensures StatusLine(OK_CODE, "OK") == "HTTP/1.1 200 OK\r\n"
  {
    assert LogStream.Natural(2) == "2" && LogStream.Natural(20) == "20" && LogStream.Natural(200) == "200";
  }

  lemma ReplySent(c: ConnectionModel.Conn, keep: bool, k2: int)
    requires c.state.Connected? && ConnectionModel.WriteResult(k2, |ReplyText(keep)|)
    ensures var r := ReplyStep(c, keep, k2);
      && r.state == (if keep then ConnectionModel.Connected else ConnectionModel.Disconnecting)
      && r.wire + r.pending == c.wire + c.pending + if c.pending == [] && !c.writeOn && k2 < 0 then "" else ReplyText(keep)
  {
    hide ReplyText;
    ConnectionModel.StepOrder(c, ConnectionModel.Send(ReplyText(keep), k2));
  }

  lemma RefusalSent(c: ConnectionModel.Conn, k1: int)
    requires c.state.Connected? && ConnectionModel.WriteResult(k1, POINTER_SIZE)
    ensures var r := RejectStep(c, k1);
      r.state.Disconnecting? && r.wire + r.pending == c.wire + c.pending + if c.pending == [] && !c.writeOn && k1 < 0 then "" else "HTTP/1.1"
  {
    assert BAD_REQUEST[..POINTER_SIZE] == "HTTP/1.1";
    ConnectionModel.StepOrder(c, ConnectionModel.Send("HTTP/1.1", k1));
  }

  /**
   * Any message on an open connection. Where a first line is expected, a whole request is answered, the connection
   * stays open exactly if it is to be kept, and the next request starts afresh; a request that is not whole changes
   * nothing but the parser. Otherwise the message is refused and the connection ends.
   */
  lemma Answered(s: Server, k1: int, k2: int)
    requires s.conn.state.Connected? && Delivered(s.request, s.text) && Answers(s, k1, k2)
    ensures var p, r := ParseMessage(s.request, s.text), OnMessageStep(s, k1, k2);
      var keep := KeepConnection(p.request);
      if s.request.state != ExpectRequestLine then
        && r.conn.state.Disconnecting?
        && r.conn.wire + r.conn.pending == s.conn.wire + s.conn.pending +
          if s.conn.pending == [] && !s.conn.writeOn && k1 < 0 then "" else "HTTP/1.1"
      else if p.request.state != GotAll then r == Server(s.conn, p.request, p.rest)
      else
        && r.request == Request(ExpectRequestLine, Invalid, Unknown, "", "", map[]) && r.text == p.rest
        && r.conn.state == (if keep then ConnectionModel.Connected else ConnectionModel.Disconnecting)
        && r.conn.wire + r.conn.pending == s.conn.wire + s.conn.pending +
          if s.conn.pending == [] && !s.conn.writeOn && k2 < 0 then ""
          else "HTTP/1.1 200 OK\r\n" + (if keep then "Connection: Keep-Alive\r\n" else "Connection: close\r\n") + "\r\n"
  {
    hide HttpText.ParseMessage, Delivered, ReplyText, KeepConnection, ReplyStep, RejectStep;
    var p := ParseMessage(s.request, s.text);
    if s.request.state != ExpectRequestLine {
      RefusalSent(s.conn, k1);
      if p.request.state == GotAll { ClosedReply(RejectStep(s.conn, k1), KeepConnection(p.request), k2); }
    } else if p.request.state == GotAll {
      ReplyIs(KeepConnection(p.request));
      ReplySent(s.conn, KeepConnection(p.request), k2);
    }
  }

  lemma ClosedReply(c: ConnectionModel.Conn, keep: bool, k2: int)
    requires !c.state.Connected? && ConnectionModel.WriteResult(k2, |ReplyText(keep)|)
    ensures ReplyStep(c, keep, k2) == c
  {
    hide ReplyText;
  }

  /** What decides whether the connection stays open. */
  lemma KeptWhen(r: Request)
    ensures KeepConnection(r) <==>
      if r.version == Http10 then "Connection" in r.headers && r.headers["Connection"] == "Keep-Alive"
      else !("Connection" in r.headers && r.headers["Connection"] == "close")
  {
  }

  lemma KeptIfAsked(c: Config, url: string, r: Request)
    requires Usual(c, url) && r.headers == Sent(c, url) && r.version == VersionOf(VersionName(Adjusted(c)))
    ensures KeepConnection(r) <==> Adjusted(c) == 2 && c.keepAlive
  {
    hide Adjusted, HostOf, After, Check;
    VersionParses(Adjusted(c));
  }

  /**
   * One request on an open connection: it is answered, unless the write fails, nothing of it but the final CRLF is
   * left, and the connection stays open exactly if the benchmark asked for version 1.1 and keep-alive.
   */
  lemma Served(c: Config, url: string, conn: ConnectionModel.Conn, k1: int, k2: int)
    requires Usual(c, url) && ' ' !in url && conn.state.Connected?
    requires Delivered(BLANK, RequestText(c, url)) && Answers(Server(conn, BLANK, RequestText(c, url)), k1, k2)
    ensures var keep, r := Adjusted(c) == 2 && c.keepAlive, OnMessageStep(Server(conn, BLANK, RequestText(c, url)), k1, k2);
      && r.request == BLANK && r.text == CRLF
      && r.conn.state == (if keep then ConnectionModel.Connected else ConnectionModel.Disconnecting)
      && r.conn.wire + r.conn.pending == conn.wire + conn.pending +
        if conn.pending == [] && !conn.writeOn && k2 < 0 then ""
        else "HTTP/1.1 200 OK\r\n" + (if keep then "Connection: Keep-Alive\r\n" else "Connection: close\r\n") + "\r\n"
  {
    hide RequestText, HttpText.ParseMessage, Adjusted, ReplyText, Sent, KeepConnection, Delivered, Check, OneLine,
         OnMessageStep, Answers, VersionName, VersionOf;
    Answered(Server(conn, BLANK, RequestText(c, url)), k1, k2);
    assert RequestText(c, url) + "" == RequestText(c, url);
    RequestRoundTrip(c, url, "");
    KeptIfAsked(c, url, ParseMessage(BLANK, RequestText(c, url)).request);
  }

  /**
   * The CRLF that is left over spoils a kept connection: it is taken for the request line of the next message,
   * which is not looked at in that call; nothing is answered.
   */
  lemma LeftoverStalls(conn: ConnectionModel.Conn, next: string, k1: int, k2: int)
    ensures Delivered(BLANK, CRLF + next)
    ensures Answers(Server(conn, BLANK, CRLF + next), k1, k2) ==>
      OnMessageStep(Server(conn, BLANK, CRLF + next), k1, k2) == Server(conn, BLANK.(state := ExpectHeaders), next)
  {
    assert CRLF + next == "" + CRLF + next;
    LineEnds("", next);
    assert (CRLF + next)[2..] == next && (CRLF + next)[..0] == "";
  }

  /** And when more bytes arrive, the message is refused and the connection shut down, whatever it says. */
  lemma ThenRefused(conn: ConnectionModel.Conn, text: string, k1: int, k2: int)
    requires conn.state.Connected? && Answers(Server(conn, BLANK.(state := ExpectHeaders), text), k1, k2)
    ensures var r := OnMessageStep(Server(conn, BLANK.(state := ExpectHeaders), text), k1, k2).conn;
      && r.state.Disconnecting?
      && r.wire + r.pending == conn.wire + conn.pending + if conn.pending == [] && !conn.writeOn && k1 < 0 then "" else "HTTP/1.1"
  {
    Answered(Server(conn, BLANK.(state := ExpectHeaders), text), k1, k2);
    hide HttpText.ParseMessage, OnMessageStep, Answers;
  }

  // ----- what happens on a connection that was kept -----

  /** Bytes arrive, in any pieces; or the connection's own events happen, with any answers of the socket. */
  datatype Event = Arrive(chunk: string, k1: int, k2: int) | Other(op: ConnectionModel.Op)

  function Receive(s: Server, chunk: string): Server {
    s.(text := s.text + chunk)
  }

  predicate CanHappen(s: Server, e: Event) {
    match e
    case Arrive(chunk, k1, k2) => Delivered(s.request, s.text + chunk) && Answers(Receive(s, chunk), k1, k2)
    case Other(op) => !op.Establish? && !op.Send? && ConnectionModel.Possible(s.conn, op)
  }

  function Happen(s: Server, e: Event): Server
    requires CanHappen(s, e)
  {
    match e
    case Arrive(chunk, k1, k2) => OnMessageStep(Receive(s, chunk), k1, k2)
    case Other(op) => s.(conn := ConnectionModel.Step(s.conn, op))
  }

  predicate Feasible(s: Server, events: seq<Event>)
    decreases |events|
  {
    events == [] || (CanHappen(s, events[0]) && Feasible(Happen(s, events[0]), events[1..]))
  }

  function Run(s: Server, events: seq<Event>): Server
    requires Feasible(s, events)
    decreases |events|
  {
    if events == [] then s else Run(Happen(s, events[0]), events[1..])
  }

  function Arrivals(events: seq<Event>): nat {
    if events == [] then 0 else (if events[0].Arrive? then 1 else 0) + Arrivals(events[1..])
  }

  /** All that was ever to be sent: the bytes the socket has been given, and those waiting. */
  function Output(c: ConnectionModel.Conn): string {
    c.wire + c.pending
  }

  lemma OtherSendsNothing(c: ConnectionModel.Conn, op: ConnectionModel.Op)
    requires !op.Establish? && !op.Send? && ConnectionModel.Possible(c, op)
    ensures var r := ConnectionModel.Step(c, op); Output(r) == Output(c) && (r.state.Connected? ==> c.state.Connected?)
  {
    ConnectionModel.StepOrder(c, op);
  }

  /** Once the connection is not open any more, nothing that arrives makes the server send. */
  lemma ClosedStep(s: Server, e: Event)
    requires !s.conn.state.Connected? && CanHappen(s, e)
    ensures !Happen(s, e).conn.state.Connected? && Output(Happen(s, e).conn) == Output(s.conn)
  {
    if e.Other? { OtherSendsNothing(s.conn, e.op); }
    hide HttpText.ParseMessage, Delivered, ReplyText, KeepConnection;
  }

  lemma {:induction false} ClosedStaysSilent(s: Server, events: seq<Event>)
    requires !s.conn.state.Connected? && Feasible(s, events)
    ensures !Run(s, events).conn.state.Connected? && Output(Run(s, events).conn) == Output(s.conn)
    decreases |events|
  {
    hide CanHappen, Happen, Output;
    if events != [] {
      ClosedStep(s, events[0]);
      ClosedStaysSilent(Happen(s, events[0]), events[1..]);
    }
  }

  /** Where headers are expected the next bytes are refused, whatever they say, and the connection is not open after it. */
  lemma RefusedStep(s: Server, e: Event)
    requires s.request == BLANK.(state := ExpectHeaders) && e.Arrive? && CanHappen(s, e)
    ensures !Happen(s, e).conn.state.Connected?
    ensures Output(Happen(s, e).conn) in {Output(s.conn), Output(s.conn) + "HTTP/1.1"}
  {
    if s.conn.state.Connected? {
      Answered(Receive(s, e.chunk), e.k1, e.k2);
      hide OnMessageStep, Answers, Delivered;
      Nothing(Output(s.conn));
    } else {
      ClosedStep(s, e);
    }
  }

  lemma Nothing(s: string)
    ensures s + "" == s
  {
  }

  lemma {:induction false} RefusedRun(s: Server, events: seq<Event>)
    requires s.request == BLANK.(state := ExpectHeaders) && Feasible(s, events)
    ensures var r := Run(s, events).conn;
      if Arrivals(events) == 0 then Output(r) == Output(s.conn)
      else !r.state.Connected? && Output(r) in {Output(s.conn), Output(s.conn) + "HTTP/1.1"}
    decreases |events|
  {
    hide CanHappen, Happen, Output;
    if events != [] {
      var next := Happen(s, events[0]);
      if events[0].Arrive? {
        RefusedStep(s, events[0]);
        ClosedStaysSilent(next, events[1..]);
      } else {
        OtherStep(s, events[0]);
        RefusedRun(next, events[1..]);
      }
    }
  }

  lemma OtherStep(s: Server, e: Event)
    requires e.Other? && CanHappen(s, e)
    ensures var r := Happen(s, e); r.request == s.request && r.text == s.text && Output(r.conn) == Output(s.conn)
  {
    OtherSendsNothing(s.conn, e.op);
  }

  lemma StalledStep(s: Server, e: Event)
    requires s.request == BLANK && s.text == CRLF && e.Arrive? && CanHappen(s, e)
    ensures Happen(s, e) == Server(s.conn, BLANK.(state := ExpectHeaders), e.chunk)
  {
    hide OnMessageStep, Answers, Delivered;
    LeftoverStalls(s.conn, e.chunk, e.k1, e.k2);
  }

  lemma {:induction false} LeftoverRun(s: Server, events: seq<Event>)
    requires s.request == BLANK && s.text == CRLF && Feasible(s, events)
    ensures var r := Run(s, events).conn;
      if Arrivals(events) < 2 then Output(r) == Output(s.conn)
      else !r.state.Connected? && Output(r) in {Output(s.conn), Output(s.conn) + "HTTP/1.1"}
    decreases |events|
  {
    hide CanHappen, Happen, Output;
    if events != [] {
      var next := Happen(s, events[0]);
      if events[0].Arrive? {
        StalledStep(s, events[0]);
        RefusedRun(next, events[1..]);
      } else {
        OtherStep(s, events[0]);
        LeftoverRun(next, events[1..]);
      }
    }
  }

  /**
   * Whole runs: after the first request on a kept connection no later one is answered, whatever it is, in whatever
   * pieces it arrives and whatever the socket does. The first piece changes nothing; from the second on at most the
   * start of a refusal has been sent, and the connection is not open any more.
   */
  lemma SecondNeverAnswered(c: Config, url: string, conn: ConnectionModel.Conn, k1: int, k2: int, first: Server,
                            events: seq<Event>)
    requires Usual(c, url) && ' ' !in url && conn.state.Connected? && Adjusted(c) == 2 && c.keepAlive
    requires Delivered(BLANK, RequestText(c, url)) && Answers(Server(conn, BLANK, RequestText(c, url)), k1, k2)
    requires first == OnMessageStep(Server(conn, BLANK, RequestText(c, url)), k1, k2) && Feasible(first, events)
    ensures first.conn.state.Connected? && Output(first.conn) == Output(conn) +
      if conn.pending == [] && !conn.writeOn && k2 < 0 then ""
      else "HTTP/1.1 200 OK\r\n" + "Connection: Keep-Alive\r\n" + "\r\n"
    ensures var r := Run(first, events).conn;
      if Arrivals(events) < 2 then Output(r) == Output(first.conn)
      else !r.state.Connected? && Output(r) in {Output(first.conn), Output(first.conn) + "HTTP/1.1"}
  {
    hide OnMessageStep, Answers, Delivered, Check, RequestText, Adjusted, Feasible, Run;
    Served(c, url, conn, k1, k2);
    LeftoverRun(first, events);
  }

  // ----- the response's headers -----

  function Trimmed(headers: map<string, string>): map<string, string> {
    map k | k in headers :: Trim(headers[k])
  }

  lemma OneFewer(keys: seq<string>, headers: map<string, string>)
    requires Lists(keys, headers) && keys != []
    ensures keys[0] in headers && Lists(keys[1..], headers - {keys[0]})
    ensures (forall k :: k in keys ==> k in headers) && (forall k :: k in keys[1..] ==> k in headers - {keys[0]})
  {
    assert forall i :: 0 < i < |keys| ==> keys[1..][i - 1] == keys[i];
    forall k ensures k in keys[1..] <==> k in headers - {keys[0]} {
      if k in keys[1..] {
        var i :| 0 <= i < |keys[1..]| && keys[1..][i] == k;
        assert keys[i + 1] == k && k in keys;
      }
      if k in headers && k != keys[0] { assert k in keys; }
    }
  }

  lemma FewerHeaders(keys: seq<string>, headers: map<string, string>, k: string)
    requires forall x :: x in keys ==> x in headers - {k}
    ensures HeaderSeq(keys, headers - {k}) == HeaderSeq(keys, headers)
  {
  }

  lemma TrimmedSplit(base: map<string, string>, headers: map<string, string>, k: string)
    requires k in headers
    ensures base[k := Trim(headers[k])] + Trimmed(headers - {k}) == base + Trimmed(headers)
  {
    hide Trim;
  }

  /** Collecting the listed headers adds exactly the map. */
  lemma {:induction false} CollectMap(base: map<string, string>, keys: seq<string>, headers: map<string, string>)
    requires Lists(keys, headers)
    ensures (forall k :: k in keys ==> k in headers) && Collect(base, HeaderSeq(keys, headers)) == base + Trimmed(headers)
    decreases |keys|
  {
    hide Trim;
    if keys == [] {
      assert Trimmed(headers) == map[] && base + map[] == base;
    } else {
      var k := keys[0];
      OneFewer(keys, headers);
      hide Lists, Trimmed;
      CollectMap(base[k := Trim(headers[k])], keys[1..], headers - {k});
      FewerHeaders(keys[1..], headers, k);
      TrimmedSplit(base, headers, k);
      assert HeaderSeq(keys, headers) == [Header(k, headers[k])] + HeaderSeq(keys[1..], headers);
      CollectOne(base, Header(k, headers[k]), HeaderSeq(keys[1..], headers));
    }
  }

  /**
   * The header block of a response, given to the request parser, comes back as the printed map and the
   * connection header, whatever the order of printing; the body stays behind the empty line.
   */
  lemma ResponseRoundTrip(r: Request, keep: bool, keys: seq<string>, headers: map<string, string>, body: string)
    requires Lists(keys, headers) && forall k :: k in headers ==> Printable(Header(k, headers[k]))
    ensures ParseHeaders(r, PrintHeaders([ConnectionHeader(keep)] + HeaderSeq(keys, headers)) + CRLF + body)
      == Parse(r.(state := GotAll,
                  headers := r.headers["Connection" := if keep then "Keep-Alive" else "close"] + Trimmed(headers)),
               CRLF + body)
  {
    hide Trim, PrintHeaders, ParseHeaders, Collect;
    var hs := HeaderSeq(keys, headers);
    LiteralLines();
    forall h | h in [ConnectionHeader(keep)] + hs ensures Printable(h) {
      if h in hs {
        var i :| 0 <= i < |hs| && hs[i] == h;
        assert keys[i] in keys;
      }
    }
    HeaderRoundTrip(r, [ConnectionHeader(keep)] + hs, body);
    TrimmedAlready("Keep-Alive");
    TrimmedAlready("close");
    CollectOne(r.headers, ConnectionHeader(keep), hs);
    CollectMap(r.headers["Connection" := if keep then "Keep-Alive" else "close"], keys, headers);
  }
}
