/** What the server does when bytes have arrived: parse, answer, and keep or end the connection. */
module HttpServer {
  import opened HttpText
  import opened ByteBuffer
  import opened HttpRequest
  import opened HttpResponse
  import ConnectionModel
  import Connection

  /** The text is passed as a pointer, and the size of the pointer is taken for its length. */
  const POINTER_SIZE: nat := 8
  const BAD_REQUEST: string := "HTTP/1.1 400 Bad Request\r\n\r\n"
  const OK_CODE: int := 200

  /** Version 1.0 closes unless it is asked to keep; every other version keeps unless it is asked to close. */
  predicate KeepConnection(r: Request) {
    !(HeaderOf(r, "Connection") == "close" || (r.version == Http10 && HeaderOf(r, "Connection") != "Keep-Alive"))
  }

  function ReplyText(keep: bool): string {
    StatusLine(OK_CODE, "OK") + PrintHeaders([ConnectionHeader(keep)]) + CRLF
  }

  /** The connection, the request object and the bytes that are left. */
  datatype Server = Server(conn: ConnectionModel.Conn, request: Request, text: string)

  /** `k1` and `k2` are what the socket answers to the two possible sends. */
  predicate Answers(s: Server, k1: int, k2: int)
    requires Delivered(s.request, s.text)
  {
    && ConnectionModel.WriteResult(k1, POINTER_SIZE)
    && ConnectionModel.WriteResult(k2, |ReplyText(KeepConnection(ParseMessage(s.request, s.text).request))|)
  }

  function RejectStep(c: ConnectionModel.Conn, k1: int): ConnectionModel.Conn
    requires ConnectionModel.WriteResult(k1, POINTER_SIZE)
  {
    ConnectionModel.ShutDownStep(ConnectionModel.SendStep(c, BAD_REQUEST[..POINTER_SIZE], k1))
  }

  function ReplyStep(c: ConnectionModel.Conn, keep: bool, k2: int): ConnectionModel.Conn
    requires ConnectionModel.WriteResult(k2, |ReplyText(keep)|)
  {
    var sent := ConnectionModel.SendStep(c, ReplyText(keep), k2);
    if keep then sent else ConnectionModel.ShutDownStep(sent)
  }

  function OnMessageStep(s: Server, k1: int, k2: int): Server
    requires Delivered(s.request, s.text) && Answers(s, k1, k2)
  {
    var p := ParseMessage(s.request, s.text);
    var c := if s.request.state == ExpectRequestLine then s.conn else RejectStep(s.conn, k1);
    if p.request.state != GotAll then Server(c, p.request, p.rest)
    else Server(ReplyStep(c, KeepConnection(p.request), k2), BLANK, p.rest)
  }

  /** A bad request: the start of an answer, and the end. */
  method Reject(conn: Connection.Connection, k1: int)
    requires conn.Valid() && ConnectionModel.WriteResult(k1, POINTER_SIZE)
    modifies conn, conn.connSock, conn.channel, conn.channel.epoller, conn.outputBuffer, conn.outputBuffer.buffer
    ensures conn.Valid() && conn.Abs() == RejectStep(old(conn.Abs()), k1)
    ensures conn.outputBuffer.buffer == old(conn.outputBuffer.buffer) || fresh(conn.outputBuffer.buffer)
  {
    hide ConnectionModel.SendStep, ConnectionModel.ShutDownStep;
    conn.Send(BAD_REQUEST[..POINTER_SIZE], k1);
    conn.ShutDown();
  }

  method MakeResponse(keepConnection: bool) returns (msg: Buffer)
    ensures fresh(msg) && fresh(msg.buffer) && msg.Valid() && msg.Readable() == ReplyText(keepConnection)
  {
    hide StatusLine, PrintHeaders, HeaderSeq;
    var response := new HttpResponse(keepConnection);
    response.statusCode, response.codeMsg := OK_CODE, "OK";
    msg := new Buffer(1024);
    response.AddToBuffer(msg, []);
    NoMoreHeaders(keepConnection, response.headers);
    NothingAround(StatusLine(OK_CODE, "OK"), PrintHeaders([ConnectionHeader(keepConnection)]), CRLF);
  }

  lemma NothingAround(a: string, b: string, c: string)
    ensures [] + a + b + c + "" == a + b + c
  {
  }

  lemma NoMoreHeaders(keep: bool, headers: map<string, string>)
    ensures [ConnectionHeader(keep)] + HeaderSeq([], headers) == [ConnectionHeader(keep)]
  {
  }

  method Reply(conn: Connection.Connection, keepConnection: bool, k2: int)
    requires conn.Valid() && ConnectionModel.WriteResult(k2, |ReplyText(keepConnection)|)
    modifies conn, conn.connSock, conn.channel, conn.channel.epoller, conn.outputBuffer, conn.outputBuffer.buffer
    ensures conn.Valid() && conn.Abs() == ReplyStep(old(conn.Abs()), keepConnection, k2)
    ensures conn.outputBuffer.buffer == old(conn.outputBuffer.buffer) || fresh(conn.outputBuffer.buffer)
  {
    hide ReplyText, ConnectionModel.SendStep, ConnectionModel.ShutDownStep;
    var msg := MakeResponse(keepConnection);
    conn.Send(msg.Readable(), k2);
    if !keepConnection {
      conn.ShutDown();
    }
  }

  /** A request that is there as a whole is answered, and the request object is made ready for the next one. */
  method Answer(conn: Connection.Connection, req: HttpRequest, k2: int)
    requires conn.Valid() && ConnectionModel.WriteResult(k2, |ReplyText(KeepConnection(req.Abs()))|)
    modifies req, conn, conn.connSock, conn.channel, conn.channel.epoller, conn.outputBuffer, conn.outputBuffer.buffer
    ensures conn.Valid() && req.Abs() == BLANK
    ensures conn.Abs() == ReplyStep(old(conn.Abs()), old(KeepConnection(req.Abs())), k2)
    ensures conn.outputBuffer.buffer == old(conn.outputBuffer.buffer) || fresh(conn.outputBuffer.buffer)
  {
    hide ReplyText, ReplyStep;
    var connection := req.GetHeader("Connection");
    var keepConnection := true;
    if connection == "close" || (req.version == Http10 && connection != "Keep-Alive") {
      keepConnection := false;
    }
    Reply(conn, keepConnection, k2);
    req.Reset();
  }

  method OnMessage(conn: Connection.Connection, req: HttpRequest, k1: int, k2: int)
    requires conn.Valid() && Delivered(req.Abs(), conn.inputBuffer.Readable())
    requires Answers(Server(conn.Abs(), req.Abs(), conn.inputBuffer.Readable()), k1, k2)
    modifies req, conn, conn.connSock, conn.channel, conn.channel.epoller
    modifies conn.inputBuffer`readIndex, conn.inputBuffer`consumed, conn.outputBuffer, conn.outputBuffer.buffer
    ensures conn.Valid()
    ensures Server(conn.Abs(), req.Abs(), conn.inputBuffer.Readable())
      == OnMessageStep(old(Server(conn.Abs(), req.Abs(), conn.inputBuffer.Readable())), k1, k2)
  {
    hide ReplyText, ReplyStep, RejectStep, HttpText.ParseMessage, Delivered, KeepConnection, ConnectionModel.WriteResult;
    var succeed := req.ParseMessage(conn.inputBuffer);
    if !succeed {
      Reject(conn, k1);
    }
    if req.state == GotAll {
      Answer(conn, req, k2);
    }
  }
}
