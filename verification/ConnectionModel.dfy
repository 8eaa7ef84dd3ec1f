/** The output path of a connection as a state machine whose calls all come from the loop thread. */
module ConnectionModel {

  datatype State = Connecting | Connected | Disconnecting | Disconnected

  /**
   * `pending` is the readable part of the output buffer; `wire` and `shut` are the socket's side: what it has
   * been given, and whether its write side has been shut down.
   */
  datatype Conn = Conn(state: State, writeOn: bool, pending: seq<char>, wire: seq<char>, shut: bool)

  const NEW: Conn := Conn(Connecting, false, [], [], false)

  /** What `write` may return for so many bytes: the number taken, or an error. */
  predicate WriteResult(k: int, len: nat) {
    -1 <= k <= len
  }

  /** Nothing is waiting, so a message may go to the socket at once. */
  predicate Direct(c: Conn) {
    !c.writeOn && c.pending == []
  }

  /** `k` is what the direct write returns, if there is one. */
  function SendStep(c: Conn, msg: seq<char>, k: int): Conn
    requires WriteResult(k, |msg|)
  {
    if !c.state.Connected? then c
    else if Direct(c) && k < 0 then c
    else
      var n := if Direct(c) then k else 0;
      var r := c.(wire := c.wire + msg[..n]);
      if n < |msg| then r.(pending := c.pending + msg[n..], writeOn := true) else r
  }

  function ShutDownInLoop(c: Conn): Conn {
    if c.writeOn then c else c.(shut := true)
  }

  function ShutDownStep(c: Conn): Conn {
    if c.state.Connected? then ShutDownInLoop(c.(state := Disconnecting)) else c
  }

  function WriteStep(c: Conn, k: int): Conn
    requires WriteResult(k, |c.pending|)
  {
    if k <= 0 then c
    else
      var r := c.(wire := c.wire + c.pending[..k], pending := c.pending[k..]);
      if r.pending != [] then r
      else if c.state.Disconnecting? then ShutDownInLoop(r.(writeOn := false))
      else r.(writeOn := false)
  }

  function CloseStep(c: Conn): Conn {
    c.(state := Disconnected, writeOn := false)
  }

  function ForceCloseStep(c: Conn): Conn {
    if c.state.Connected? || c.state.Disconnecting? then CloseStep(c) else c
  }

  datatype Op = Establish | Send(msg: seq<char>, k: int) | ShutDown | HandleWrite(taken: int) | HandleClose | ForceClose

  /** The server establishes a connection once; the socket answers within the bytes it was offered. */
  predicate Possible(c: Conn, op: Op) {
    match op
    case Establish => c.state.Connecting?
    case Send(msg, k) => WriteResult(k, |msg|)
    case HandleWrite(k) => WriteResult(k, |c.pending|)
    case _ => true
  }

  function Step(c: Conn, op: Op): Conn
    requires Possible(c, op)
  {
    match op
    case Establish => c.(state := Connected)
    case Send(msg, k) => SendStep(c, msg, k)
    case ShutDown => ShutDownStep(c)
    case HandleWrite(k) => WriteStep(c, k)
    case HandleClose => CloseStep(c)
    case ForceClose => ForceCloseStep(c)
  }

  // ----- runs -----

  predicate Feasible(c: Conn, ops: seq<Op>)
    decreases |ops|
  {
    ops == [] || (Possible(c, ops[0]) && Feasible(Step(c, ops[0]), ops[1..]))
  }

  function Run(c: Conn, ops: seq<Op>): Conn
    requires Feasible(c, ops)
    decreases |ops|
  {
    if ops == [] then c else Run(Step(c, ops[0]), ops[1..])
  }

  /** A send is accepted while connected, unless it is written directly and that write fails. */
  predicate Accepts(c: Conn, op: Op) {
    op.Send? && c.state.Connected? && !(Direct(c) && op.k < 0)
  }

  /** The messages the run accepts, one after the other. */
  function Accepted(c: Conn, ops: seq<Op>): seq<char>
    requires Feasible(c, ops)
    decreases |ops|
  {
    if ops == [] then [] else (if Accepts(c, ops[0]) then ops[0].msg else []) + Accepted(Step(c, ops[0]), ops[1..])
  }

  ghost predicate Inv(c: Conn) {
    && (!c.state.Disconnected? ==> (c.writeOn <==> c.pending != []))
    && (c.state.Disconnected? ==> !c.writeOn)
    && (c.state.Connecting? || c.state.Connected? ==> !c.shut)
    && (c.state.Disconnecting? ==> (c.shut <==> c.pending == []))
    && (c.shut ==> c.pending == [])
  }

  lemma StepKeeps(c: Conn, op: Op)
    requires Inv(c) && Possible(c, op)
    ensures Inv(Step(c, op))
  {
  }

  lemma SendOrder(c: Conn, msg: seq<char>, k: int)
    requires WriteResult(k, |msg|) && c.state.Connected? && !(Direct(c) && k < 0)
    ensures var r := SendStep(c, msg, k); r.wire + r.pending == c.wire + c.pending + msg
  {
    var n := if Direct(c) then k else 0;
    assert msg == msg[..n] + msg[n..];
    if Direct(c) {
      Nothing(c.wire);
      Nothing(c.wire + msg[..n]);
      InOrder(c.wire, msg[..n], [], msg[n..]);
    } else {
      InOrder(c.wire, [], c.pending, msg);
    }
  }

  lemma Nothing(s: seq<char>)
    ensures s + [] == s
  {
  }

  lemma InOrder(w: seq<char>, a: seq<char>, p: seq<char>, b: seq<char>)
    requires a == [] || p == []
    ensures (w + a) + (p + b) == w + p + (a + b)
  {
  }

  lemma WriteOrder(c: Conn, k: int)
    requires WriteResult(k, |c.pending|)
    ensures var r := WriteStep(c, k); r.wire + r.pending == c.wire + c.pending
  {
    if k > 0 { assert c.pending == c.pending[..k] + c.pending[k..]; }
  }

  /** One step: the stream of written and waiting bytes grows by what is accepted, at the end. */
  lemma StepOrder(c: Conn, op: Op)
    requires Possible(c, op)
    ensures var r := Step(c, op);
      r.wire + r.pending == c.wire + c.pending + if Accepts(c, op) then op.msg else []
  {
    if Accepts(c, op) {
      SendOrder(c, op.msg, op.k);
    } else {
      Nothing(c.wire + c.pending);
      if op.HandleWrite? { WriteOrder(c, op.taken); }
    }
  }

  // ----- what each call does, in terms of what is waiting -----

  /**
   * An open connection with nothing waiting gives the message to the socket and keeps what is not taken, unless
   * the write fails; with something waiting the message is kept as a whole; otherwise nothing happens.
   */
  lemma SendDoes(c: Conn, msg: seq<char>, k: int)
    requires Inv(c) && -1 <= k <= |msg|
    ensures Possible(c, Send(msg, k))
    ensures var r := Step(c, Send(msg, k));
      if c.state != Connected || (c.pending == [] && k < 0) then r == c && !Accepts(c, Send(msg, k))
      else
        && Accepts(c, Send(msg, k))
        && r == if c.pending == [] then c.(wire := c.wire + msg[..k], pending := msg[k..], writeOn := k < |msg|)
                else c.(pending := c.pending + msg)
  {
    Nothing(c.wire);
    Nothing(c.pending);
    assert msg[..0] == [] && msg[0..] == msg && [] + msg[if k < 0 then 0 else k..] == msg[if k < 0 then 0 else k..];
  }

  /** Shutting down ends sending, and takes effect on the socket at once exactly if nothing is waiting. */
  lemma ShutDownDoes(c: Conn)
    requires Inv(c)
    ensures Step(c, ShutDown) == if c.state == Connected then c.(state := Disconnecting, shut := c.pending == []) else c
  {
  }

  /** What is taken goes to the socket; after the last byte interest ends, and so does a connection shutting down. */
  lemma WriteDoes(c: Conn, k: int)
    requires Inv(c) && -1 <= k <= |c.pending|
    ensures Possible(c, HandleWrite(k))
    ensures Step(c, HandleWrite(k)) ==
      if k <= 0 then c
      else c.(wire := c.wire + c.pending[..k], pending := c.pending[k..],
              writeOn := c.state != Disconnected && k < |c.pending|, shut := c.shut || (c.state == Disconnecting && k == |c.pending|))
  {
  }

  lemma CloseDoes(c: Conn)
    ensures Step(c, HandleClose) == c.(state := Disconnected, writeOn := false)
    ensures Step(c, ForceClose) == if c.state in {Connected, Disconnecting} then c.(state := Disconnected, writeOn := false) else c
  {
  }

  /** From the beginning: an established connection is open, and its first message goes out as far as it is taken. */
  lemma FirstSend(msg: seq<char>, k: int)
    requires 0 <= k <= |msg|
    ensures var ops := [Establish, Send(msg, k)];
      && Feasible(NEW, [Establish]) && Run(NEW, [Establish]) == Conn(Connected, false, [], [], false)
      && Feasible(NEW, ops) && Run(NEW, ops) == Conn(Connected, k < |msg|, msg[k..], msg[..k], false)
      && Accepted(NEW, ops) == msg
  {
    var ops, open := [Establish, Send(msg, k)], Conn(Connected, false, [], [], false);
    SendDoes(open, msg, k);
    assert ops[1..] == [Send(msg, k)] && [Establish][1..] == [] && [Send(msg, k)][1..] == [];
    assert [] + msg[..k] == msg[..k] && [] + msg == msg && msg + [] == msg;
    assert Step(NEW, Establish) == open;
    hide SendStep, Accepts;
    var sent := Step(open, Send(msg, k));
    assert Feasible(sent, []) && Run(sent, []) == sent && Accepted(sent, []) == [];
    assert Feasible(open, [Send(msg, k)]) && Run(open, [Send(msg, k)]) == sent && Accepted(open, [Send(msg, k)]) == msg;
  }

  lemma {:induction false} RunKeeps(c: Conn, ops: seq<Op>)
    requires Inv(c) && Feasible(c, ops)
    ensures Inv(Run(c, ops))
    ensures Run(c, ops).wire + Run(c, ops).pending == c.wire + c.pending + Accepted(c, ops)
    decreases |ops|
  {
    hide Inv, Step;
    if ops != [] {
      StepKeeps(c, ops[0]);
      StepOrder(c, ops[0]);
      RunKeeps(Step(c, ops[0]), ops[1..]);
    }
  }

  /**
   * Every run, whatever the partial writes: the bytes given to the socket and those still waiting are the
   * accepted messages in order, and until the end write interest is on exactly while bytes are waiting.
   */
  lemma WireOrder(ops: seq<Op>)
    requires Feasible(NEW, ops)
    ensures Run(NEW, ops).wire + Run(NEW, ops).pending == Accepted(NEW, ops)
    ensures !Run(NEW, ops).state.Disconnected? ==> (Run(NEW, ops).writeOn <==> Run(NEW, ops).pending != [])
  {
    RunKeeps(NEW, ops);
  }

  lemma {:induction false} ShutStays(c: Conn, more: seq<Op>)
    requires Inv(c) && c.shut && Feasible(c, more)
    ensures Run(c, more).shut && Run(c, more).wire == c.wire && Accepted(c, more) == []
    decreases |more|
  {
    if more != [] {
      StepKeeps(c, more[0]);
      assert Step(c, more[0]).shut && Step(c, more[0]).wire == c.wire;
      ShutStays(Step(c, more[0]), more[1..]);
    }
  }

  /**
   * The write side is shut down only when every byte accepted before has reached the socket, and nothing is
   * accepted or written after it in any continuation. A connection that is being shut down has been, exactly
   * if nothing is waiting any more.
   */
  lemma GracefulShutdown(ops: seq<Op>, more: seq<Op>)
    requires Feasible(NEW, ops) && Feasible(Run(NEW, ops), more)
    ensures var c := Run(NEW, ops);
      && (c.shut ==> c.wire == Accepted(NEW, ops) && Run(c, more).shut && Run(c, more).wire == c.wire && Accepted(c, more) == [])
      && (c.state.Disconnecting? ==> (c.shut <==> c.wire == Accepted(NEW, ops)))
  {
    RunKeeps(NEW, ops);
    var c := Run(NEW, ops);
    if c.shut { ShutStays(c, more); assert c.wire + c.pending == c.wire; }
    if c.pending != [] { assert |c.wire + c.pending| > |c.wire|; }
  }

  function Sum(ks: seq<nat>): nat {
    if ks == [] then 0 else ks[0] + Sum(ks[1..])
  }

  function Writes(ks: seq<nat>): (r: seq<Op>)
    ensures |r| == |ks|
  {
    if ks == [] then [] else [HandleWrite(ks[0])] + Writes(ks[1..])
  }

  /** Draining: whatever the sizes of the writes, once they add up to what was waiting, the shutdown happens. */
  lemma {:induction false} Drains(c: Conn, ks: seq<nat>)
    requires Inv(c) && c.state.Disconnecting? && Sum(ks) == |c.pending|
    ensures Feasible(c, Writes(ks))
    ensures Run(c, Writes(ks)).shut && Run(c, Writes(ks)).wire == c.wire + c.pending
    decreases |ks|
  {
    if ks == [] {
      assert c.wire + c.pending == c.wire;
    } else {
      var op := HandleWrite(ks[0]);
      var r := Step(c, op);
      assert Writes(ks)[0] == op && Writes(ks)[1..] == Writes(ks[1..]);
      StepKeeps(c, op);
      StepOrder(c, op);
      Drains(r, ks[1..]);
    }
  }
}
