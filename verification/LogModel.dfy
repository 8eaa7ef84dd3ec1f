/** The asynchronous logger as atomic steps: producers append, the backend swaps, writes and recycles. */
module LogModel {

  type Msg = seq<char>
  /** The whole messages a buffer holds, in order. */
  type Buf = seq<Msg>

  datatype Option<T> = None | Some(value: T)

  /** Capacity of one logging buffer. */
  const SIZE: nat := 4000000
  /** A batch of more buffers than this is cut. */
  const CROWD: nat := 25

  function Bytes(b: seq<Msg>): seq<char> {
    if b == [] then [] else Bytes(b[..|b| - 1]) + b[|b| - 1]
  }

  function Flat(bs: seq<Buf>): seq<Msg> {
    if bs == [] then [] else Flat(bs[..|bs| - 1]) + bs[|bs| - 1]
  }

  /** What the backend thread does next. */
  datatype Pc = Head | Wait | Cut | Write | Recycle | Done

  /**
   * Front: the buffer being filled, its spare, and the full ones. Backend: the two spares, the batch being
   * written and how much of it is written. `accepted` and `dropped` are history.
   */
  datatype Log = Log(
    cur: Buf, next: Option<Buf>, vec: seq<Buf>, running: bool,
    pc: Pc, back1: Option<Buf>, back2: Option<Buf>, batch: seq<Buf>, written: nat,
    out: seq<Msg>, accepted: seq<Msg>, dropped: seq<Msg>)

  const START: Log := Log([], Some([]), [], true, Head, Some([]), Some([]), [], 0, [], [], [])

  function Room(b: Buf): int {
    SIZE - |Bytes(b)|
  }

  /** `FixedBuffer::append`: the message is copied only if it is strictly shorter than the room. */
  function Put(b: Buf, m: Msg): Buf {
    if |m| < Room(b) then b + [m] else b
  }

  /** The message goes to the current buffer, if there is room for it. */
  function FillPart(s: Log, m: Msg): Log {
    s.(cur := Put(s.cur, m), accepted := if |m| < Room(s.cur) then s.accepted + [m] else s.accepted)
  }

  /** The current buffer is put aside; the spare or a new buffer replaces it. */
  function RotatePart(s: Log): Log {
    s.(vec := s.vec + [s.cur], cur := if s.next.Some? then s.next.value else [], next := None)
  }

  function AppendStep(s: Log, m: Msg): Log {
    FillPart(if Room(s.cur) >= |m| then s else RotatePart(s), m)
  }

  function VectorsPart(s: Log): Log {
    s.(vec := s.batch, batch := s.vec)
  }

  /** The current buffer joins the batch, and the first spare, emptied, becomes the current one. */
  function GiveCurrentPart(s: Log): Log {
    s.(pc := Cut, written := 0, batch := s.batch + [s.cur], cur := [], back1 := None)
  }

  function GiveNextPart(s: Log): Log {
    s.(next := Some([]), back2 := None)
  }

  /** The swap needs a first spare, and a second one if the front has used up its own. */
  predicate CanSwap(s: Log) {
    s.pc == Wait && s.back1.Some? && (s.next.None? ==> s.back2.Some?)
  }

  function SwapStep(s: Log): Log
    requires CanSwap(s)
  {
    var t := GiveCurrentPart(VectorsPart(s));
    if t.next.None? then GiveNextPart(t) else t
  }

  function CutStep(s: Log): Log
    requires s.pc == Cut
  {
    if |s.batch| > CROWD then s.(pc := Write, batch := s.batch[..2], dropped := s.dropped + Flat(s.batch[2..]))
    else s.(pc := Write)
  }

  function WriteStep(s: Log): Log
    requires s.pc == Write
  {
    if s.written < |s.batch| then s.(out := s.out + s.batch[s.written], written := s.written + 1)
    else s.(pc := Recycle)
  }

  function TrimPart(s: Log): Log {
    if |s.batch| > 2 then s.(batch := s.batch[..2]) else s
  }

  function PopPart(s: Log): Log
    requires s.batch != []
  {
    s.(batch := s.batch[..|s.batch| - 1])
  }

  function Missing(s: Log): nat {
    (if s.back1.None? then 1 else 0) + if s.back2.None? then 1 else 0
  }

  function RefillBack1Part(s: Log): Log
    requires s.back1.None? ==> s.batch != []
  {
    if s.back1.None? then PopPart(s).(back1 := Some([])) else s
  }

  function RefillBack2Part(s: Log): Log
    requires s.back2.None? ==> s.batch != []
  {
    if s.back2.None? then PopPart(s).(back2 := Some([])) else s
  }

  function ClearPart(s: Log): Log {
    s.(pc := Head, batch := [], written := 0)
  }

  /** Recycling takes as many buffers off the trimmed batch as spares are missing. */
  predicate CanRecycle(s: Log) {
    s.pc == Recycle && Missing(s) <= |TrimPart(s).batch|
  }

  function RecycleStep(s: Log): Log
    requires CanRecycle(s)
  {
    ClearPart(RefillBack2Part(RefillBack1Part(TrimPart(s))))
  }

  datatype Op = Append(msg: Msg) | Check | Swap | CutBatch | WriteOne | RecycleAll | Stop

  predicate Enabled(s: Log, op: Op) {
    match op
    case Append(_) => true
    case Check => s.pc == Head
    case Swap => s.pc == Wait
    case CutBatch => s.pc == Cut
    case WriteOne => s.pc == Write
    case RecycleAll => s.pc == Recycle
    case Stop => true
  }

  /** The step dereferences no missing buffer. */
  predicate Safe(s: Log, op: Op) {
    Enabled(s, op) && (op.Swap? ==> CanSwap(s)) && (op.RecycleAll? ==> CanRecycle(s))
  }

  function Step(s: Log, op: Op): Log
    requires Safe(s, op)
  {
    match op
    case Append(m) => AppendStep(s, m)
    case Check => s.(pc := if s.running then Wait else Done)
    case Swap => SwapStep(s)
    case CutBatch => CutStep(s)
    case WriteOne => WriteStep(s)
    case RecycleAll => RecycleStep(s)
    case Stop => s.(running := false)
  }

  // ----- what every step keeps -----

  /** Messages on their way: written, in the rest of the batch, in full front buffers, in the current one. */
  function Pending(s: Log): seq<Msg> {
    s.out + Flat(if s.written <= |s.batch| then s.batch[s.written..] else []) + Flat(s.vec) + s.cur
  }

  ghost predicate Subsequence(a: seq<Msg>, b: seq<Msg>) {
    a == [] || (b != [] && (Subsequence(a, b[..|b| - 1]) || (a[|a| - 1] == b[|b| - 1] && Subsequence(a[..|a| - 1], b[..|b| - 1]))))
  }

  ghost predicate Spare(o: Option<Buf>) {
    o.Some? ==> o.value == []
  }

  ghost predicate Inv(s: Log) {
    && Room(s.cur) > 0 && Spare(s.next) && Spare(s.back1) && Spare(s.back2)
    && (s.next.None? ==> s.vec != [])
    && s.written <= |s.batch|
    && (s.pc == Head || s.pc == Wait || s.pc == Done ==> s.batch == [] && s.back1.Some? && s.back2.Some?)
    && (s.pc == Cut ==> s.written == 0)
    && (s.pc == Recycle ==> s.written == |s.batch|)
    && (s.pc == Cut || s.pc == Write || s.pc == Recycle ==>
          s.back1.None? && |s.batch| >= (if s.back2.None? then 2 else 1))
  }

  /** Nothing is invented, reordered, duplicated or split, and what is missing was dropped. */
  ghost predicate Faithful(s: Log) {
    && Subsequence(Pending(s), s.accepted)
    && multiset(s.accepted) == multiset(Pending(s)) + multiset(s.dropped)
    && (s.dropped == [] ==> Pending(s) == s.accepted)
  }

  lemma InvSafe(s: Log, op: Op)
    requires Inv(s) && Enabled(s, op)
    ensures Safe(s, op)
  {
  }

  lemma InvKept(s: Log, op: Op)
    requires Inv(s) && Safe(s, op)
    ensures Inv(Step(s, op))
  {
    hide AppendStep, SwapStep, CutStep, WriteStep, RecycleStep, Bytes, Flat;
    match op
    case Append(m) => AppendKept(s, m);
    case Swap => SwapKept(s);
    case CutBatch => CutKept(s);
    case WriteOne => WriteKept(s);
    case RecycleAll => RecycleKept(s);
    case Check =>
    case Stop =>
  }

  lemma AppendKept(s: Log, m: Msg)
    requires Inv(s)
    ensures Inv(AppendStep(s, m))
  {
    hide RotatePart, FillPart, Bytes, Room;
    RotateKept(s);
    FillKept(if Room(s.cur) >= |m| then s else RotatePart(s), m);
  }

  lemma RotateKept(s: Log)
    requires Inv(s)
    ensures Inv(RotatePart(s))
  {
    assert Room([]) == SIZE by { assert Bytes([]) == []; }
    hide Bytes, Room;
  }

  lemma FillKept(s: Log, m: Msg)
    requires Inv(s)
    ensures Inv(FillPart(s, m))
  {
    PutRoom(s.cur, m);
    hide Bytes, Room, Put;
  }

  lemma SwapKept(s: Log)
    requires Inv(s) && CanSwap(s)
    ensures Inv(SwapStep(s))
  {
    assert Room([]) == SIZE by { assert Bytes([]) == []; }
    hide Bytes, Room;
  }

  lemma CutKept(s: Log)
    requires Inv(s) && s.pc == Cut
    ensures Inv(CutStep(s))
  {
    hide Bytes, Room, Flat;
  }

  lemma WriteKept(s: Log)
    requires Inv(s) && s.pc == Write
    ensures Inv(WriteStep(s))
  {
    hide Bytes, Room;
  }

  lemma RecycleKept(s: Log)
    requires Inv(s) && CanRecycle(s)
    ensures Inv(RecycleStep(s))
  {
    hide Bytes, Room;
  }

  lemma PutRoom(b: Buf, m: Msg)
    requires Room(b) > 0
    ensures Room(Put(b, m)) > 0
  {
    assert (b + [m])[..|b|] == b;
  }

  /** Exactly when a message is accepted: it fits an empty buffer and does not fill the current one to the brim. */
  lemma Accepts(s: Log, m: Msg)
    requires Inv(s)
    ensures Room(s.cur) == 4000000 - |Bytes(s.cur)|
    ensures AppendStep(s, m).accepted ==
      (if |m| < 4000000 && |m| != Room(s.cur) then s.accepted + [m] else s.accepted)
    ensures AppendStep(s, m).vec == (if |m| > Room(s.cur) then s.vec + [s.cur] else s.vec)
  {
    assert Bytes([]) == [];
  }

  // ----- where the messages are -----

  lemma {:induction false} FlatConcat(a: seq<Buf>, b: seq<Buf>)
    ensures Flat(a + b) == Flat(a) + Flat(b)
  {
    if b == [] {
      assert a + b == a;
    } else {
      assert (a + b)[..|a + b| - 1] == a + b[..|b| - 1];
      FlatConcat(a, b[..|b| - 1]);
    }
  }

  lemma FlatOne(b: Buf)
    ensures Flat([b]) == b
  {
    assert Flat([]) == [];
  }

  lemma {:induction false} SubsequenceMore(a: seq<Msg>, b: seq<Msg>, c: seq<Msg>)
    requires Subsequence(a, b)
    ensures Subsequence(a + c, b + c)
  {
    if c == [] {
      assert a + c == a && b + c == b;
    } else {
      var c' := c[..|c| - 1];
      SubsequenceMore(a, b, c');
      assert (a + c)[..|a + c| - 1] == a + c' && (b + c)[..|b + c| - 1] == b + c';
    }
  }

  /** Leaving out a stretch in the middle. */
  lemma {:induction false} SubsequenceLess(x: seq<Msg>, y: seq<Msg>, z: seq<Msg>, b: seq<Msg>)
    requires Subsequence(x + y + z, b)
    ensures Subsequence(x + z, b)
    decreases |b|, |z| + |y|
  {
    var a := x + y + z;
    if z != [] {
      assert a[..|a| - 1] == x + y + z[..|z| - 1] && (x + z)[..|x + z| - 1] == x + z[..|z| - 1];
      if Subsequence(a, b[..|b| - 1]) {
        SubsequenceLess(x, y, z, b[..|b| - 1]);
      } else {
        SubsequenceLess(x, y, z[..|z| - 1], b[..|b| - 1]);
      }
    } else if y != [] {
      assert a[..|a| - 1] == x + y[..|y| - 1] + z;
      DropLast(a, b);
      SubsequenceLess(x, y[..|y| - 1], z, b);
    } else {
      assert a == x + z;
    }
  }

  lemma {:induction false} DropLast(a: seq<Msg>, b: seq<Msg>)
    requires a != [] && Subsequence(a, b)
    ensures Subsequence(a[..|a| - 1], b)
    decreases |b|
  {
    if Subsequence(a, b[..|b| - 1]) { DropLast(a, b[..|b| - 1]); }
  }

  lemma Regroup(a: seq<Msg>, b: seq<Msg>, c: seq<Msg>, d: seq<Msg>, e: seq<Msg>)
    ensures a + b + (c + d) + e == a + b + c + d + e
    ensures a + b + c + (d + e) == a + b + c + d + e
    ensures a + (b + c) + d + e == a + b + c + d + e
  {
  }

  lemma FillPending(s: Log, m: Msg)
    ensures var r := FillPart(s, m); var more := if |m| < Room(s.cur) then [m] else [];
      Pending(r) == Pending(s) + more && r.accepted == s.accepted + more && r.dropped == s.dropped
  {
    hide Bytes, Flat, Room;
    Regroup(s.out, Flat(if s.written <= |s.batch| then s.batch[s.written..] else []), Flat(s.vec), s.cur, [m]);
  }

  lemma RotatePending(s: Log)
    requires Inv(s)
    ensures var r := RotatePart(s);
      Pending(r) == Pending(s) && r.accepted == s.accepted && r.dropped == s.dropped && Room(r.cur) == 4000000
  {
    hide Flat;
    assert Bytes([]) == [];
    FlatConcat(s.vec, [s.cur]);
    FlatOne(s.cur);
  }

  lemma AppendPending(s: Log, m: Msg)
    requires Inv(s)
    ensures var r := AppendStep(s, m); var more := if |m| < SIZE && |m| != Room(s.cur) then [m] else [];
      Pending(r) == Pending(s) + more && r.accepted == s.accepted + more && r.dropped == s.dropped
  {
    RoomIs(s.cur);
    RotatePending(s);
    FillPending(if Room(s.cur) >= |m| then s else RotatePart(s), m);
    hide Pending, Room, RotatePart, FillPart, Inv;
  }

  lemma RoomIs(b: Buf)
    ensures Room(b) == 4000000 - |Bytes(b)| <= 4000000
  {
  }

  lemma SwapPending(s: Log)
    requires Inv(s) && CanSwap(s)
    ensures Pending(SwapStep(s)) == Pending(s)
  {
    hide Bytes;
    FlatConcat(s.vec, [s.cur]);
    FlatOne(s.cur);
    assert s.batch == [] && Flat([]) == [];
    assert (s.vec + [s.cur])[0..] == s.vec + [s.cur];
    Ends(s.out, Flat(s.vec), s.cur);
  }

  lemma Ends(a: seq<Msg>, b: seq<Msg>, c: seq<Msg>)
    ensures a + [] + b + c == a + (b + c) + [] + []
  {
  }

  /** Cutting a batch takes exactly the messages of its third and later buffers out of the stream. */
  lemma CutPending(s: Log)
    requires Inv(s) && s.pc == Cut && |s.batch| > CROWD
    ensures Pending(s) == s.out + Flat(s.batch[..2]) + Flat(s.batch[2..]) + (Flat(s.vec) + s.cur)
    ensures Pending(CutStep(s)) == s.out + Flat(s.batch[..2]) + (Flat(s.vec) + s.cur)
  {
    hide Bytes;
    assert s.batch == s.batch[..2] + s.batch[2..];
    FlatConcat(s.batch[..2], s.batch[2..]);
    assert s.batch[0..] == s.batch && s.batch[..2][0..] == s.batch[..2];
    Regroup(s.out, Flat(s.batch[..2]), Flat(s.batch[2..]), Flat(s.vec), s.cur);
    assert s.out + Flat(s.batch[..2]) + Flat(s.vec) + s.cur == s.out + Flat(s.batch[..2]) + (Flat(s.vec) + s.cur);
  }

  lemma WritePending(s: Log)
    requires Inv(s) && s.pc == Write
    ensures Pending(WriteStep(s)) == Pending(s)
  {
    hide Bytes;
    if s.written < |s.batch| {
      var b, rest := s.batch[s.written], s.batch[s.written + 1..];
      assert s.batch[s.written..] == [b] + rest;
      FlatConcat([b], rest);
      FlatOne(b);
      Regroup(s.out, b, Flat(rest), Flat(s.vec), s.cur);
    }
  }

  /** The other steps leave the stream alone. */
  lemma QuietPending(s: Log, op: Op)
    requires Inv(s) && Safe(s, op) && !op.Append? && !(op.CutBatch? && |s.batch| > CROWD)
    ensures Pending(Step(s, op)) == Pending(s)
  {
    hide Bytes, Flat;
    match op
    case Swap => SwapPending(s);
    case WriteOne => WritePending(s);
    case RecycleAll => assert s.batch[s.written..] == [];
    case _ =>
  }

  /** No step breaks faithfulness. */
  lemma FaithfulKept(s: Log, op: Op)
    requires Inv(s) && Faithful(s) && Safe(s, op)
    ensures Faithful(Step(s, op))
  {
    hide Pending, Inv, AppendStep, Room, Subsequence, CutStep, Flat;
    if op.Append? {
      var m := op.msg;
      AppendPending(s, m);
      SubsequenceMore(Pending(s), s.accepted, if |m| < SIZE && |m| != Room(s.cur) then [m] else []);
    } else if op.CutBatch? && |s.batch| > CROWD {
      CutFaithful(s);
    } else {
      QuietPending(s, op);
      QuietHistory(s, op);
    }
  }

  lemma QuietHistory(s: Log, op: Op)
    requires Safe(s, op) && !op.Append? && !(op.CutBatch? && |s.batch| > CROWD)
    ensures Step(s, op).accepted == s.accepted && Step(s, op).dropped == s.dropped
  {
  }

  lemma CutFaithful(s: Log)
    requires Inv(s) && Faithful(s) && s.pc == Cut && |s.batch| > CROWD
    ensures Faithful(CutStep(s))
  {
    CutPending(s);
    hide Pending, Inv, Flat, Subsequence;
    var x, y, z := s.out + Flat(s.batch[..2]), Flat(s.batch[2..]), Flat(s.vec) + s.cur;
    SubsequenceLess(x, y, z, s.accepted);
    CutMultiset(x, y, z, s.dropped);
  }

  lemma CutMultiset(x: seq<Msg>, y: seq<Msg>, z: seq<Msg>, d: seq<Msg>)
    ensures multiset(x + z) + multiset(d + y) == multiset(x + y + z) + multiset(d)
    ensures d + y == [] ==> d == [] && x + y + z == x + z
  {
  }

  // ----- whole runs -----

  /** An unsafe step would end the program: nothing happens after it. */
  function DoStep(s: Log, op: Op): Log {
    if Safe(s, op) then Step(s, op) else s
  }

  function Run(s: Log, ops: seq<Op>): Log
    decreases |ops|
  {
    if ops == [] then s else Run(DoStep(s, ops[0]), ops[1..])
  }

  /** An interleaving: any producer may append at any time, the backend follows its own order. */
  predicate Interleaving(s: Log, ops: seq<Op>)
    decreases |ops|
  {
    ops == [] || (Enabled(s, ops[0]) && Interleaving(DoStep(s, ops[0]), ops[1..]))
  }

  predicate AllSafe(s: Log, ops: seq<Op>)
    decreases |ops|
  {
    ops == [] || (Safe(s, ops[0]) && AllSafe(DoStep(s, ops[0]), ops[1..]))
  }

  /** No batch of the run is cut. */
  predicate NeverCrowded(s: Log, ops: seq<Op>)
    decreases |ops|
  {
    ops == [] || ((ops[0].CutBatch? ==> |s.batch| <= CROWD) && NeverCrowded(DoStep(s, ops[0]), ops[1..]))
  }

  lemma {:induction false} RunKept(s: Log, ops: seq<Op>)
    requires Inv(s) && Faithful(s) && Interleaving(s, ops)
    ensures AllSafe(s, ops) && Inv(Run(s, ops)) && Faithful(Run(s, ops))
    ensures NeverCrowded(s, ops) ==> Run(s, ops).dropped == s.dropped
    decreases |ops|
  {
    hide Inv, Faithful, Step, Safe, Enabled;
    if ops != [] {
      InvSafe(s, ops[0]);
      InvKept(s, ops[0]);
      FaithfulKept(s, ops[0]);
      if ops[0].CutBatch? ==> |s.batch| <= CROWD { DropsOnlyCrowds(s, ops[0]); }
      RunKept(Step(s, ops[0]), ops[1..]);
    }
  }

  lemma DropsOnlyCrowds(s: Log, op: Op)
    requires Safe(s, op) && (op.CutBatch? ==> |s.batch| <= CROWD)
    ensures Step(s, op).dropped == s.dropped
  {
  }

  /** No interleaving ever misses a buffer, and what is under way is faithful to what was accepted. */
  lemma LogSafety(ops: seq<Op>)
    requires Interleaving(START, ops)
    ensures AllSafe(START, ops) && Inv(Run(START, ops)) && Faithful(Run(START, ops))
    ensures NeverCrowded(START, ops) ==> Pending(Run(START, ops)) == Run(START, ops).accepted
  {
    assert Bytes([]) == [] && Flat([]) == [];
    assert Pending(START) == [];
    RunKept(START, ops);
  }

  /**
   * The silent drop happens: after a first message, one that fills the room in the current buffer to the last
   * byte is lost, although it would fit an empty buffer.
   */
  lemma DroppedAtBrim(first: Msg, m: Msg)
    requires 0 < |first| < SIZE && |first| + |m| == SIZE
    ensures var ops := [Append(first), Append(m)];
      |m| < SIZE && Interleaving(START, ops) && Run(START, ops).accepted == [first] && Pending(Run(START, ops)) == [first]
  {
    StartKept(first);
    var s1 := AppendStep(START, first);
    OneMessage(first);
    assert AppendStep(s1, m) == s1;
    assert [Append(first), Append(m)][1..] == [Append(m)] && [Append(m)][1..] == [];
    assert Run(s1, [Append(m)]) == Run(s1, []);
    assert Flat([]) == [];
  }

  lemma OneMessage(m: Msg)
    ensures Bytes([m]) == m
  {
    assert [m][..0] == [] && Bytes([]) == [];
  }

  /**
   * When the backend has ended, everything not written is still in the front buffers; so with nothing dropped
   * the output is complete exactly if the front buffers hold no message.
   */
  lemma Stranded(s: Log)
    requires Inv(s) && Faithful(s) && s.pc == Done
    ensures Pending(s) == s.out + (Flat(s.vec) + s.cur)
    ensures s.dropped == [] ==> (s.out == s.accepted <==> Flat(s.vec) + s.cur == [])
  {
    assert Flat([]) == [];
    Ends(s.out, Flat(s.vec), s.cur);
    if s.out == s.out + (Flat(s.vec) + s.cur) { assert |Flat(s.vec) + s.cur| == 0; }
  }

  /** Stopping does lose messages: one appended just before it is accepted and never written. */
  lemma LostAtStop(m: Msg)
    requires |m| < SIZE
    ensures var ops := [Append(m), Stop, Check];
      Interleaving(START, ops) && Run(START, ops).pc == Done
      && Run(START, ops).accepted == [m] && Run(START, ops).out == [] && Run(START, ops).dropped == []
  {
    StartKept(m);
    var s1 := AppendStep(START, m);
    var s2 := s1.(running := false);
    assert Run(s2, [Check]) == Run(s2.(pc := Done), []);
    assert [Append(m), Stop, Check][1..] == [Stop, Check] && [Stop, Check][1..] == [Check] && [Check][1..] == [];
    assert Run(s1, [Stop, Check]) == Run(s2, [Check]);
  }

  // ----- in numbers -----

  /** The messages a run appends, and their bytes. */
  function Appended(ops: seq<Op>): seq<Msg>
    decreases |ops|
  {
    if ops == [] then [] else (if ops[0].Append? then [ops[0].msg] else []) + Appended(ops[1..])
  }

  function Volume(ops: seq<Op>): nat
    decreases |ops|
  {
    if ops == [] then 0 else (if ops[0].Append? then |ops[0].msg| else 0) + Volume(ops[1..])
  }

  /** A new logger takes exactly the messages below four million bytes. */
  lemma FirstAccepted(m: Msg)
    ensures Interleaving(START, [Append(m)])
    ensures Run(START, [Append(m)]).accepted == if |m| < 4000000 then [m] else []
  {
    assert Bytes([]) == [];
    Accepts(START, m);
    assert Run(AppendStep(START, m), []) == AppendStep(START, m) && [Append(m)][1..] == [];
  }

  /** One buffer has been enough so far. */
  ghost predicate Quiet(s: Log) {
    Inv(s) && s.vec == [] && |s.batch| <= 1 && s.next.Some?
  }

  lemma QuietAppend(s: Log, m: Msg)
    requires Quiet(s) && |Bytes(s.cur)| + |m| < 4000000
    ensures var r := AppendStep(s, m);
      Quiet(r) && r.accepted == s.accepted + [m] && r.dropped == s.dropped && |Bytes(r.cur)| == |Bytes(s.cur)| + |m|
  {
    AppendKept(s, m);
    assert (s.cur + [m])[..|s.cur|] == s.cur;
  }

  lemma QuietStep(s: Log, op: Op)
    requires Quiet(s) && Enabled(s, op) && !op.Append?
    ensures Safe(s, op) && Quiet(Step(s, op))
    ensures var r := Step(s, op);
      r.accepted == s.accepted && r.dropped == s.dropped && |Bytes(r.cur)| <= |Bytes(s.cur)|
  {
    assert Bytes([]) == [];
    InvSafe(s, op);
    InvKept(s, op);
    hide Bytes, Flat, Inv;
  }

  lemma {:induction false} QuietRun(s: Log, ops: seq<Op>)
    requires Quiet(s) && Interleaving(s, ops) && |Bytes(s.cur)| + Volume(ops) < 4000000
    ensures Run(s, ops).accepted == s.accepted + Appended(ops) && Run(s, ops).dropped == s.dropped
    decreases |ops|
  {
    hide Quiet, Step, Bytes;
    if ops != [] {
      if ops[0].Append? { AppendIsStep(s, ops[0].msg); QuietAppend(s, ops[0].msg); } else { QuietStep(s, ops[0]); }
      QuietRun(DoStep(s, ops[0]), ops[1..]);
    }
  }

  lemma AppendIsStep(s: Log, m: Msg)
    ensures DoStep(s, Append(m)) == AppendStep(s, m)
  {
  }

  /** As long as all messages together stay below four million bytes, every one is accepted and none is lost. */
  lemma SmallRun(ops: seq<Op>)
    requires Interleaving(START, ops) && Volume(ops) < 4000000
    ensures Run(START, ops).dropped == [] && Run(START, ops).accepted == Appended(ops) == Pending(Run(START, ops))
  {
    hide Pending, Run, Interleaving, Quiet, Bytes, Inv, Subsequence, Volume, Appended, AllSafe;
    QuietStart();
    LogSafety(ops);
    QuietRun(START, ops);
  }

  lemma QuietStart()
    ensures Quiet(START) && |Bytes(START.cur)| == 0
  {
    assert Bytes([]) == [];
  }

  function Writes(n: nat): (ops: seq<Op>)
    ensures |ops| == n
  {
    if n == 0 then [] else [WriteOne] + Writes(n - 1)
  }

  lemma {:induction false} RunInTwo(s: Log, a: seq<Op>, b: seq<Op>)
    requires Interleaving(s, a) && Interleaving(Run(s, a), b)
    ensures Interleaving(s, a + b) && Run(s, a + b) == Run(Run(s, a), b)
    decreases |a|
  {
    hide DoStep, Enabled;
    if a == [] {
      assert a + b == b;
    } else {
      assert (a + b)[0] == a[0] && (a + b)[1..] == a[1..] + b;
      RunInTwo(DoStep(s, a[0]), a[1..], b);
    }
  }

  lemma RunOne(s: Log, op: Op)
    requires Safe(s, op)
    ensures Interleaving(s, [op]) && Run(s, [op]) == Step(s, op)
  {
    hide Step;
    assert [op][1..] == [];
    assert Run(Step(s, op), []) == Step(s, op);
  }

  /** Writing the rest of a batch, buffer by buffer. */
  lemma {:induction false} WritesAll(s: Log, n: nat)
    requires s.pc == Write && s.written + n == |s.batch|
    ensures Interleaving(s, Writes(n + 1))
    ensures Run(s, Writes(n + 1)) == s.(pc := Recycle, written := |s.batch|, out := s.out + Flat(s.batch[s.written..]))
    decreases n
  {
    assert Writes(n + 1) == [WriteOne] + Writes(n);
    RunOne(s, WriteOne);
    var r := WriteStep(s);
    if n > 0 {
      WritesAll(r, n - 1);
      BatchHead(s);
    } else {
      assert s.batch[s.written..] == [] && Flat([]) == [];
      assert s.out + [] == s.out && Run(r, []) == r && Interleaving(r, []);
    }
    RunInTwo(s, [WriteOne], Writes(n));
  }

  lemma BatchHead(s: Log)
    requires s.written < |s.batch|
    ensures s.out + Flat(s.batch[s.written..]) == s.out + s.batch[s.written] + Flat(s.batch[s.written + 1..])
  {
    assert s.batch[s.written..] == [s.batch[s.written]] + s.batch[s.written + 1..];
    FlatConcat([s.batch[s.written]], s.batch[s.written + 1..]);
    FlatOne(s.batch[s.written]);
  }

  /**
   * One round of the backend of a running logger: up to 25 buffers, the current one among them, are written as a whole; of more the
   * first two are written, and exactly the messages of the others are lost.
   */
  lemma OneRound(s: Log)
    requires Inv(s) && s.pc == Head && s.running
    ensures var n := if |s.vec| + 1 <= 25 then |s.vec| + 1 else 2;
      var ops := [Check] + ([Swap] + ([CutBatch] + (Writes(n + 1) + [RecycleAll])));
      && Interleaving(s, ops)
      && var r := Run(s, ops);
        && r.pc == Head && r.vec == [] && r.cur == [] && r.accepted == s.accepted
        && r.out == s.out + Flat((s.vec + [s.cur])[..n]) && r.dropped == s.dropped + Flat((s.vec + [s.cur])[n..])
  {
    RunOne(s, Check);
    InvKept(s, Check);
    hide CutStep, SwapStep, Flat, Bytes, Inv, Writes, Interleaving, Run;
    var w := Step(s, Check);
    RoundFromWait(w);
    var n := if |s.vec| + 1 <= 25 then |s.vec| + 1 else 2;
    RunInTwo(s, [Check], [Swap] + ([CutBatch] + (Writes(n + 1) + [RecycleAll])));
  }

  lemma RoundFromWait(s: Log)
    requires Inv(s) && s.pc == Wait
    ensures var n := if |s.vec| + 1 <= 25 then |s.vec| + 1 else 2;
      var ops := [Swap] + ([CutBatch] + (Writes(n + 1) + [RecycleAll]));
      && Interleaving(s, ops)
      && var r := Run(s, ops);
        && r.pc == Head && r.vec == [] && r.cur == [] && r.accepted == s.accepted
        && r.out == s.out + Flat((s.vec + [s.cur])[..n]) && r.dropped == s.dropped + Flat((s.vec + [s.cur])[n..])
  {
    hide CutStep, SwapStep, Flat, Bytes, Inv, Writes, Interleaving, Run, Safe;
    var batch := s.vec + [s.cur];
    var n := if |batch| <= 25 then |batch| else 2;
    RoundSwap(s);
    var t := SwapStep(s);
    RoundCut(t, n);
    RoundTail(CutStep(t));
    RunOne(t, CutBatch);
    RunInTwo(t, [CutBatch], Writes(n + 1) + [RecycleAll]);
    RunOne(s, Swap);
    RunInTwo(s, [Swap], [CutBatch] + (Writes(n + 1) + [RecycleAll]));
  }

  lemma RoundTail(u: Log)
    requires Inv(u) && u.pc == Write && u.written == 0
    ensures var ops := Writes(|u.batch| + 1) + [RecycleAll];
      && Interleaving(u, ops)
      && var r := Run(u, ops);
        r.pc == Head && r.vec == u.vec && r.cur == u.cur && r.accepted == u.accepted && r.dropped == u.dropped
        && r.out == u.out + Flat(u.batch)
  {
    hide Flat, Bytes, Run, Interleaving;
    WritesAll(u, |u.batch|);
    assert u.batch[0..] == u.batch;
    var v := u.(pc := Recycle, written := |u.batch|, out := u.out + Flat(u.batch));
    InvSafe(v, RecycleAll);
    RoundEnd(v);
    RunInTwo(u, Writes(|u.batch| + 1), [RecycleAll]);
  }

  lemma RoundSwap(s: Log)
    requires Inv(s) && s.pc == Wait
    ensures CanSwap(s) && Safe(s, Swap)
    ensures var t := SwapStep(s);
      Inv(t) && t.pc == Cut && t.batch == s.vec + [s.cur] && t.vec == [] && t.cur == [] && t.written == 0
      && t.out == s.out && t.accepted == s.accepted && t.dropped == s.dropped
  {
    InvSafe(s, Swap);
    InvKept(s, Swap);
    hide Bytes;
  }

  lemma RoundCut(t: Log, n: nat)
    requires Inv(t) && t.pc == Cut && n == if |t.batch| <= 25 then |t.batch| else 2
    ensures Safe(t, CutBatch) && Inv(CutStep(t))
    ensures CutStep(t) == t.(pc := Write, batch := t.batch[..n], dropped := t.dropped + Flat(t.batch[n..]))
  {
    InvKept(t, CutBatch);
    assert Flat([]) == [];
    if |t.batch| <= 25 {
      assert t.batch[..n] == t.batch && t.batch[n..] == [];
      assert t.dropped + [] == t.dropped;
    }
  }

  lemma RoundEnd(v: Log)
    requires Safe(v, RecycleAll)
    ensures Interleaving(v, [RecycleAll])
    ensures var r := Run(v, [RecycleAll]);
      r.pc == Head && r.vec == v.vec && r.cur == v.cur && r.out == v.out && r.accepted == v.accepted && r.dropped == v.dropped
  {
    RunOne(v, RecycleAll);
  }

  lemma StartKept(m: Msg)
    requires |m| < SIZE
    ensures AppendStep(START, m) == START.(cur := [m], accepted := [m])
  {
    assert Bytes([]) == [];
    assert [] + [m] == [m];
  }
}
