/** The server's response printer. */
module HttpResponse {
  import opened HttpText
  import opened ByteBuffer
  import LogStream

  /** The array that the start of the status line is formatted into, with its terminator. */
  const START_SIZE: nat := 14
  const VERSION: string := "HTTP/1.1"

  /** The order in which the headers are printed lists each name once. */
  ghost predicate Lists(keys: seq<string>, headers: map<string, string>) {
    && (forall i, j :: 0 <= i < j < |keys| ==> keys[i] != keys[j])
    && (forall k :: k in keys <==> k in headers)
  }

  function HeaderSeq(keys: seq<string>, headers: map<string, string>): (hs: seq<Header>)
    requires forall k :: k in keys ==> k in headers
    ensures |hs| == |keys| && forall i :: 0 <= i < |hs| ==> hs[i] == Header(keys[i], headers[keys[i]])
  {
    if keys == [] then [] else [Header(keys[0], headers[keys[0]])] + HeaderSeq(keys[1..], headers)
  }

  function ConnectionHeader(keep: bool): Header {
    Header("Connection", if keep then "Keep-Alive" else "close")
  }

  function Clip(s: string, n: nat): string {
    if |s| <= n then s else s[..n]
  }

  function StatusLine(code: int, codeMsg: string): string {
    Clip(VERSION + " " + LogStream.Decimal(code) + " ", START_SIZE - 1) + codeMsg + CRLF
  }

  class HttpResponse {
    var keepConnection: bool
    var statusCode: int
    var codeMsg: string
    var headers: map<string, string>
    var body: string

    constructor (keepConnection: bool)
      ensures this.keepConnection == keepConnection && statusCode == 0 && codeMsg == "" && headers == map[] && body == ""
    {
      this.keepConnection, statusCode, codeMsg, headers, body := keepConnection, 0, "", map[], "";
    }

    /** Status line, connection header, the other headers in the order of `keys`, an empty line and the body. */
    method AddToBuffer(outputBuf: Buffer, keys: seq<string>)
      requires outputBuf.Valid() && Lists(keys, headers)
      modifies outputBuf, outputBuf.buffer
      ensures outputBuf.Valid() && (outputBuf.buffer == old(outputBuf.buffer) || fresh(outputBuf.buffer))
      ensures outputBuf.Readable() == old(outputBuf.Readable()) + StatusLine(statusCode, codeMsg)
        + PrintHeaders([ConnectionHeader(keepConnection)] + HeaderSeq(keys, headers)) + CRLF + body
    {
      hide PrintHeaders, HeaderSeq, StatusLine, Lists;
      AllListed(keys, headers);
      ghost var before, status := outputBuf.Readable(), StatusLine(statusCode, codeMsg);
      ghost var first, others := PrintHeaders([ConnectionHeader(keepConnection)]), PrintHeaders(HeaderSeq(keys, headers));
      AddStatusLine(outputBuf);
      AddHeader(outputBuf, "Connection", if keepConnection then "Keep-Alive" else "close");
      AddHeaders(outputBuf, keys);
      AddBody(outputBuf);
      PrintMore([ConnectionHeader(keepConnection)], HeaderSeq(keys, headers));
      Regrouped(before + status, first, others, CRLF, body);
    }

    method AddBody(outputBuf: Buffer)
      requires outputBuf.Valid()
      modifies outputBuf, outputBuf.buffer
      ensures outputBuf.Valid() && (outputBuf.buffer == old(outputBuf.buffer) || fresh(outputBuf.buffer))
      ensures outputBuf.Readable() == old(outputBuf.Readable()) + CRLF + body
    {
      outputBuf.Append(CRLF);
      outputBuf.Append(body);
    }

    method AddHeaders(outputBuf: Buffer, keys: seq<string>)
      requires outputBuf.Valid() && forall k :: k in keys ==> k in headers
      modifies outputBuf, outputBuf.buffer
      ensures outputBuf.Valid() && (outputBuf.buffer == old(outputBuf.buffer) || fresh(outputBuf.buffer))
      ensures outputBuf.Readable() == old(outputBuf.Readable()) + PrintHeaders(HeaderSeq(keys, headers))
    {
      hide PrintHeaders, HeaderSeq;
      ghost var before := outputBuf.Readable();
      NoHeaders(keys, headers);
      var i := 0;
      while i < |keys|
        invariant 0 <= i <= |keys| && outputBuf.Valid()
        invariant outputBuf.buffer == old(outputBuf.buffer) || fresh(outputBuf.buffer)
        invariant outputBuf.Readable() == before + PrintHeaders(HeaderSeq(keys[..i], headers))
      {
        AddHeader(outputBuf, keys[i], headers[keys[i]]);
        NextHeader(keys, headers, i);
        Grouped(before, PrintHeaders(HeaderSeq(keys[..i], headers)), PrintHeaders([Header(keys[i], headers[keys[i]])]), "");
        i := i + 1;
      }
      assert keys[..i] == keys;
    }

    method AddStatusLine(outputBuf: Buffer)
      requires outputBuf.Valid()
      modifies outputBuf, outputBuf.buffer
      ensures outputBuf.Valid() && (outputBuf.buffer == old(outputBuf.buffer) || fresh(outputBuf.buffer))
      ensures outputBuf.Readable() == old(outputBuf.Readable()) + StatusLine(statusCode, codeMsg)
    {
      hide LogStream.Decimal;
      ghost var before := outputBuf.Readable();
      var start := Clip(VERSION + " " + LogStream.Decimal(statusCode) + " ", START_SIZE - 1);
      hide Clip;
      outputBuf.Append(start);
      outputBuf.Append(codeMsg);
      outputBuf.Append(CRLF);
      assert outputBuf.Readable() == before + start + codeMsg + CRLF;
      Grouped(before, start, codeMsg, CRLF);
    }

    method AddHeader(outputBuf: Buffer, name: string, value: string)
      requires outputBuf.Valid()
      modifies outputBuf, outputBuf.buffer
      ensures outputBuf.Valid() && (outputBuf.buffer == old(outputBuf.buffer) || fresh(outputBuf.buffer))
      ensures outputBuf.Readable() == old(outputBuf.Readable()) + PrintHeaders([Header(name, value)])
    {
      hide PrintHeaders;
      PrintOne(name, value);
      ghost var before := outputBuf.Readable();
      outputBuf.Append(name);
      outputBuf.Append(": ");
      outputBuf.Append(value);
      outputBuf.Append(CRLF);
      assert outputBuf.Readable() == before + name + ": " + value + CRLF;
      Grouped(before, name, ": ", value);
      Grouped(before, name + ": " + value, CRLF, "");
    }
  }

  lemma NoHeaders(keys: seq<string>, headers: map<string, string>)
    requires forall k :: k in keys ==> k in headers
    ensures PrintHeaders(HeaderSeq(keys[..0], headers)) == ""
  {
  }

  /** The next header is printed at the end. */
  lemma NextHeader(keys: seq<string>, headers: map<string, string>, i: nat)
    requires i < |keys| && forall k :: k in keys ==> k in headers
    ensures PrintHeaders(HeaderSeq(keys[..i + 1], headers))
      == PrintHeaders(HeaderSeq(keys[..i], headers)) + PrintHeaders([Header(keys[i], headers[keys[i]])])
  {
    hide PrintHeaders, HeaderSeq;
    var h := Header(keys[i], headers[keys[i]]);
    assert HeaderSeq(keys[..i + 1], headers) == HeaderSeq(keys[..i], headers) + [h];
    PrintMore(HeaderSeq(keys[..i], headers), [h]);
  }

  lemma AllListed(keys: seq<string>, headers: map<string, string>)
    requires Lists(keys, headers)
    ensures forall k :: k in keys ==> k in headers
  {
  }

  lemma Regrouped(a: string, b: string, c: string, d: string, e: string)
    ensures a + b + c + d + e == a + (b + c) + d + e
  {
  }

  lemma Grouped(a: string, b: string, c: string, d: string)
    ensures a + b + c + d == a + (b + c + d)
    ensures a + b + c == a + (b + c)
  {
  }

  /** Of what comes before the reason at most 13 characters are printed. */
  lemma StatusLineIs(code: int, codeMsg: string)
    ensures var start := "HTTP/1.1 " + LogStream.Decimal(code) + " ";
      StatusLine(code, codeMsg) == (if |start| <= 13 then start else start[..13]) + codeMsg + "\r\n"
  {
    hide LogStream.Decimal;
    assert VERSION + " " == "HTTP/1.1 ";
  }

  /** The status line is printed as a whole exactly if the code takes no more than three characters. */
  lemma StatusLineWhole(code: nat, codeMsg: string)
    ensures StatusLine(code, codeMsg) == "HTTP/1.1 " + LogStream.Decimal(code) + " " + codeMsg + "\r\n" <==> code < 1000
  {
    LogStream.NaturalLength(code, 3);
    assert LogStream.Power10(1) == 10 && LogStream.Power10(2) == 100 && LogStream.Power10(3) == 1000;
    var start := "HTTP/1.1 " + LogStream.Decimal(code) + " ";
    hide LogStream.Decimal, StatusLine;
    StatusLineIs(code, codeMsg);
    assert |start| == 10 + |LogStream.Decimal(code)|;
    if code >= 1000 { assert |StatusLine(code, codeMsg)| < |start + codeMsg + CRLF|; }
  }
}
