/** The connection's own methods, each shown to take one step of `ConnectionModel`. */
module Connection {
  import opened ConnectionModel
  import opened ByteBuffer
  import opened EventChannel

  /** The socket's write side: what it has been given so far, and whether it has been shut down. */
  class Socket {
    var wire: seq<char>
    var shut: bool

    constructor ()
      ensures wire == [] && !shut
    {
      wire, shut := [], false;
    }

    /** `k` is what the system answers. */
    method Write(msg: seq<char>, k: int) returns (n: int)
      requires WriteResult(k, |msg|)
      modifies this`wire
      ensures n == k && wire == old(wire) + if k > 0 then msg[..k] else []
    {
      if k > 0 { wire := wire + msg[..k]; }
      n := k;
    }

    method ShutdownWrite()
      modifies this`shut
      ensures shut
    {
      shut := true;
    }
  }

  /** Which branch an arrival of bytes takes. */
  datatype ReadOutcome = ToCallBack | Closing | ToErrorHandler

  class Connection {
    const connSock: Socket
    const channel: Channel
    const inputBuffer: Buffer
    const outputBuffer: Buffer
    var state: State
    /** Whether the user has set a callback for received messages. */
    var hasReceiver: bool

    constructor (epoller: Epoller, fd: int)
      requires fd !in epoller.interest
      ensures Valid() && Abs() == NEW && !hasReceiver && channel.epoller == epoller
      ensures fresh(connSock) && fresh(channel) && fresh(outputBuffer) && fresh(outputBuffer.buffer)
      ensures fresh(inputBuffer) && fresh(inputBuffer.buffer) && inputBuffer.Readable() == []
    {
      connSock := new Socket();
      channel := new Channel(epoller, fd);
      inputBuffer := new Buffer(1024);
      outputBuffer := new Buffer(1024);
      state, hasReceiver := Connecting, false;
    }

    ghost predicate Valid()
      reads this, channel, channel.epoller, inputBuffer, inputBuffer.buffer, outputBuffer, outputBuffer.buffer
    {
      && channel.Valid() && inputBuffer.Valid() && outputBuffer.Valid()
      && inputBuffer != outputBuffer && inputBuffer.buffer != outputBuffer.buffer
    }

    ghost function Abs(): Conn
      requires Valid()
      reads this, connSock, channel, channel.epoller, inputBuffer, inputBuffer.buffer, outputBuffer, outputBuffer.buffer
    {
      Conn(state, channel.IsWriteEvent(), outputBuffer.Readable(), connSock.wire, connSock.shut)
    }

    method ConnectEstablished()
      requires Valid() && Possible(Abs(), Establish)
      modifies this`state, channel, channel.epoller
      ensures Valid() && Abs() == Step(old(Abs()), Establish) && channel.IsReadEvent()
      ensures state == Connected
    {
      state := Connected;
      channel.EnableReadEvent();
    }

    method Send(msg: seq<char>, k: int)
      requires Valid() && WriteResult(k, |msg|)
      modifies connSock, channel, channel.epoller, outputBuffer, outputBuffer.buffer
      ensures Valid() && Abs() == SendStep(old(Abs()), msg, k)
      ensures outputBuffer.buffer == old(outputBuffer.buffer) || fresh(outputBuffer.buffer)
    {
      if state == Connected {
        SendInLoop(msg, k);
      }
    }

    /** Writes directly if nothing is waiting, and keeps what is left for the write events. */
    method SendInLoop(msg: seq<char>, k: int)
      requires Valid() && WriteResult(k, |msg|) && state == Connected
      modifies connSock, channel, channel.epoller, outputBuffer, outputBuffer.buffer
      ensures Valid() && Abs() == SendStep(old(Abs()), msg, k)
      ensures outputBuffer.buffer == old(outputBuffer.buffer) || fresh(outputBuffer.buffer)
    {
      var remain, writtenLen, errorFlag := |msg|, 0, false;
      ghost var c := Abs();
      assert msg[..0] == [] && c.wire + [] == c.wire && msg[0..] == msg;
      if !channel.IsWriteEvent() && outputBuffer.GetReadableLen() == 0 {
        writtenLen := connSock.Write(msg, k);
        if writtenLen >= 0 {
          remain := remain - writtenLen;
        } else {
          writtenLen, errorFlag := 0, true;
        }
      }
      if !errorFlag && remain > 0 {
        KeepRest(msg[writtenLen..]);
      }
    }

    /** The rest of a message waits behind what is waiting already. */
    method KeepRest(rest: seq<char>)
      requires Valid()
      modifies channel, channel.epoller, outputBuffer, outputBuffer.buffer
      ensures Valid()
      ensures Abs() == old(Abs()).(pending := old(Abs()).pending + rest, writeOn := true)
      ensures outputBuffer.buffer == old(outputBuffer.buffer) || fresh(outputBuffer.buffer)
    {
      outputBuffer.Append(rest);
      if !channel.IsWriteEvent() {
        channel.EnableWriteEvent();
      }
    }

    method ShutDown()
      requires Valid()
      modifies this`state, connSock
      ensures Valid() && Abs() == ShutDownStep(old(Abs()))
      ensures state == if old(state) == Connected then Disconnecting else old(state)
    {
      if state == Connected {
        state := Disconnecting;
        ShutDownInLoop();
      }
    }

    method ShutDownInLoop()
      requires Valid()
      modifies connSock
      ensures Valid() && Abs() == ConnectionModel.ShutDownInLoop(old(Abs()))
    {
      if !channel.IsWriteEvent() {
        connSock.ShutdownWrite();
      }
    }

    method SetMessageReceivedCallBack(callable: bool)
      modifies this`hasReceiver
      ensures hasReceiver == callable
    {
      hasReceiver := callable;
    }

    /**
     * `parts` are the calls that returned data before one did not. Nothing read, be it the end of the stream or
     * an error, closes the connection: the sum is never negative, so the error branch is taken exactly if
     * something was read and there is no callback for it.
     */
    method HandleRead(parts: seq<seq<char>>) returns (outcome: ReadOutcome)
      requires Valid() && Receivable(inputBuffer.GetWriteableLen(), parts)
      modifies this`state, channel, channel.epoller, inputBuffer, inputBuffer.buffer
      ensures Valid()
      ensures outcome.Closing? <==> parts == []
      ensures outcome.ToCallBack? <==> parts != [] && hasReceiver
      ensures outcome.ToErrorHandler? <==> parts != [] && !hasReceiver
      ensures Abs() == if parts == [] then CloseStep(old(Abs())) else old(Abs())
      ensures |parts| <= 1 ==> inputBuffer.Readable() == old(inputBuffer.Readable()) + Concat(parts)
      ensures inputBuffer.buffer == old(inputBuffer.buffer) || fresh(inputBuffer.buffer)
    {
      SomethingRead(parts);
      hide Concat, Total, Landed;
      var receiveSum := inputBuffer.ReadFd(parts);
      if receiveSum > 0 && hasReceiver {
        outcome := ToCallBack;
      } else if receiveSum == 0 {
        HandleClose();
        outcome := Closing;
      } else {
        outcome := ToErrorHandler;
      }
    }

    method HandleWrite(k: int)
      requires Valid() && WriteResult(k, |outputBuffer.Readable()|)
      modifies this`state, connSock, channel, channel.epoller, outputBuffer, outputBuffer.buffer
      ensures Valid() && Abs() == WriteStep(old(Abs()), k)
      ensures outputBuffer.buffer == old(outputBuffer.buffer)
    {
      var sendSum := connSock.Write(outputBuffer.Readable(), k);
      if sendSum > 0 {
        outputBuffer.HaveReadForLen(sendSum);
        if outputBuffer.GetReadableLen() == 0 {
          channel.DisableWriteEvent();
          if state == Disconnecting {
            ShutDownInLoop();
          }
        }
      }
    }

    method HandleClose()
      requires Valid()
      modifies this`state, channel, channel.epoller
      ensures Valid() && Abs() == CloseStep(old(Abs())) && state == Disconnected && channel.IsNoEvent()
    {
      state := Disconnected;
      channel.DisableAll();
    }

    method ForceClose()
      requires Valid()
      modifies this`state, channel, channel.epoller
      ensures Valid() && Abs() == ForceCloseStep(old(Abs()))
      ensures state == if old(state) in {Connected, Disconnecting} then Disconnected else old(state)
    {
      if state == Connected || state == Disconnecting {
        HandleClose();
      }
    }
  }

  lemma SomethingRead(parts: seq<seq<char>>)
    requires forall r :: r in parts ==> r != []
    ensures Total(parts) == 0 <==> parts == []
  {
    if parts != [] { assert parts[|parts| - 1] in parts; }
  }
}
