/** The server's request object: a loop over its state that consumes the connection's buffer. */
module HttpRequest {
  import opened HttpText
  import opened ByteBuffer

  class HttpRequest {
    var state: State
    var verb: Method
    var version: Version
    var path: string
    var query: string
    var headers: map<string, string>

    constructor ()
      ensures Abs() == BLANK
    {
      state, verb, version, path, query, headers := ExpectRequestLine, Invalid, Unknown, "", "", map[];
    }

    function Abs(): Request
      reads this
    {
      Request(state, verb, version, path, query, headers)
    }

    method Reset()
      modifies this
      ensures Abs() == BLANK
    {
      state, verb, version, path, query, headers := ExpectRequestLine, Invalid, Unknown, "", "", map[];
    }

    /** Fills in method, path, query and version, as far as they can be recognised. */
    method ParseRequestLine(line: string) returns (ok: bool)
      requires QueryInOrder(line)
      modifies this
      ensures Line(ok, Abs()) == HttpText.ParseRequestLine(old(Abs()), line)
    {
      hide Find, HttpText.ParseTarget, MethodOf;
      var space := Find(line, ' ');
      if space == |line| { return false; }
      verb := MethodOf(line[..space]);
      if verb == Invalid { return false; }
      ok := ParseTarget(line[space + 1..]);
    }

    /** The target up to its space, split at its question mark, and then the version. */
    method ParseTarget(start: string) returns (ok: bool)
      requires Find(start, '?') < Find(start, ' ') || Find(start, '?') == |start| || Find(start, ' ') == |start|
      modifies this
      ensures Line(ok, Abs()) == HttpText.ParseTarget(old(Abs()), start)
    {
      hide Find, VersionOf;
      if start == "" { return false; }
      var question := Find(start, '?');
      var space := Find(start, ' ');
      if space == |start| { return false; }
      if question == |start| {
        path := start[..space];
      } else {
        path, query := start[..question], start[question + 1..space];
      }
      var rest := start[space + 1..];
      if rest == "" { return false; }
      version := VersionOf(rest);
      ok := version != Unknown;
    }

    method ParseHeader(line: string, colon: nat)
      requires colon < |line|
      modifies this`headers
      ensures Abs() == HttpText.ParseHeader(old(Abs()), line, colon)
    {
      headers := headers[line[..colon] := Trim(line[colon + 1..])];
    }

    /** One header line is taken in, or the block is found to have ended, or the line is not there yet. */
    method HeaderStep(buf: Buffer) returns (hasMore: bool)
      requires buf.Valid() && state == ExpectHeaders
      modifies this, buf`readIndex, buf`consumed
      ensures buf.Valid() && buf.buffer == old(buf.buffer)
      ensures if hasMore then |buf.Readable()| < |old(buf.Readable())| else buf.Readable() == old(buf.Readable())
      ensures if hasMore then state == ExpectHeaders else state == ExpectHeaders || state == GotAll
      ensures ParseHeaders(old(Abs()), old(buf.Readable())) ==
        if hasMore then ParseHeaders(Abs(), buf.Readable()) else Parse(Abs(), buf.Readable())
    {
      hide HttpText.ParseHeader, Find, FindCrlf, HttpText.ParseHeaders;
      var text := buf.Readable();
      HeadersOpened(Abs(), text);
      var crlf := FindCrlf(text);
      hasMore := false;
      if crlf != |text| {
        var colon := Find(text[..crlf], ':');
        if colon != crlf {
          ParseHeader(text[..crlf], colon);
          assert Abs() == HttpText.ParseHeader(old(Abs()), text[..crlf], colon);
          buf.HaveReadForLen(crlf + 2);
          HeaderKeepsState(old(Abs()), text[..crlf], colon);
          hasMore := true;
        } else {
          state := GotAll;
        }
      }
    }

    /**
     * Consumes what belongs to the message. The result says no more than that a request line was expected:
     * a malformed one succeeds as well.
     */
    method ParseMessage(buf: Buffer) returns (succeed: bool)
      requires buf.Valid() && Delivered(Abs(), buf.Readable())
      modifies this, buf`readIndex, buf`consumed
      ensures buf.Valid() && buf.buffer == old(buf.buffer)
      ensures Parse(Abs(), buf.Readable()) == HttpText.ParseMessage(old(Abs()), old(buf.Readable()))
      ensures succeed <==> old(state) == ExpectRequestLine
    {
      hide HttpText.ParseRequestLine, HttpText.ParseHeaders, Find, FindCrlf, QueryInOrder;
      ghost var goal := HttpText.ParseMessage(Abs(), buf.Readable());
      succeed := false;
      var hasMore := true;
      while hasMore
        invariant buf.Valid() && buf.buffer == old(buf.buffer)
        invariant !hasMore ==> Parse(Abs(), buf.Readable()) == goal
        invariant hasMore ==> Delivered(Abs(), buf.Readable()) && HttpText.ParseMessage(Abs(), buf.Readable()) == goal
        invariant state == ExpectRequestLine ==> hasMore && !succeed && old(state) == ExpectRequestLine
        invariant state != ExpectRequestLine ==> (succeed <==> old(state) == ExpectRequestLine)
        decreases |buf.Readable()|, state == ExpectHeaders, state == ExpectBody, hasMore
      {
        var text := buf.Readable();
        match state
        case ExpectRequestLine =>
          var crlf := FindCrlf(text);
          hasMore := ParseRequestLine(text[..crlf]);
          buf.HaveReadForLen(crlf + 2);
          succeed := true;
          state := ExpectHeaders;
        case ExpectHeaders =>
          hasMore := HeaderStep(buf);
        case ExpectBody =>
          state := GotAll;
        case GotAll =>
          buf.HaveReadAll();
          hasMore := false;
      }
    }

    function GetHeader(name: string): string
      reads this
    {
      HeaderOf(Abs(), name)
    }
  }

  lemma HeadersOpened(r: Request, text: string)
    ensures var end := FindCrlf(text);
      ParseHeaders(r, text) ==
        if end == |text| then Parse(r, text)
        else if Find(text[..end], ':') == end then Parse(r.(state := GotAll), text)
        else ParseHeaders(HttpText.ParseHeader(r, text[..end], Find(text[..end], ':')), text[end + 2..])
  {
    hide Find, FindCrlf;
  }

  lemma HeaderKeepsState(r: Request, line: string, colon: nat)
    requires colon < |line|
    ensures HttpText.ParseHeader(r, line, colon).state == r.state
  {
  }

  /** A missing header reads as the empty string. */
  function HeaderOf(r: Request, name: string): string {
    if name in r.headers then r.headers[name] else ""
  }
}
