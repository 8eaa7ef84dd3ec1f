/** The logger's buffers and threads, updated in place, step by step as in `LogModel`. */
module AsyncLogging {
  import opened Fixed
  import opened LogModel

  /** The places that can own a buffer; the slots of each vector carry its colour. */
  datatype Place = Current | Next | Back1 | Back2 | Slot(colour: bool, index: nat)

  /** Who owns a buffer and which messages it holds: a buffer has one seat, so it is never owned twice. */
  datatype Seat = Seat(place: Place, messages: Buf)
  type Seats = map<FixedBuffer, Seat>

  /** The pointers of the logger. */
  datatype Hands = Hands(cur: FixedBuffer, next: FixedBuffer?, vec: seq<FixedBuffer>,
                         back1: FixedBuffer?, back2: FixedBuffer?, batch: seq<FixedBuffer>)

  /** A null pointer is a missing buffer. */
  ghost predicate Sits(seats: Seats, b: FixedBuffer?, p: Place, o: Option<Buf>) {
    if b == null then o.None? else o.Some? && b in seats && seats[b] == Seat(p, o.value)
  }

  ghost predicate Row(seats: Seats, colour: bool, bs: seq<FixedBuffer>, os: seq<Buf>) {
    |bs| == |os| && forall i :: 0 <= i < |bs| ==> bs[i] in seats && seats[bs[i]] == Seat(Slot(colour, i), os[i])
  }

  ghost predicate Ties(seats: Seats, colour: bool, h: Hands, s: Log) {
    && Sits(seats, h.cur, Current, Some(s.cur)) && Sits(seats, h.next, Next, s.next)
    && Sits(seats, h.back1, Back1, s.back1) && Sits(seats, h.back2, Back2, s.back2)
    && Row(seats, colour, h.vec, s.vec) && Row(seats, !colour, h.batch, s.batch)
  }

  /** No two buffers share storage. */
  ghost predicate Apart(buffers: set<FixedBuffer>) {
    forall b, c :: b in buffers && c in buffers && b != c ==> b.data != c.data
  }

  /** Every buffer holds the messages of its seat. */
  ghost predicate Stored(seats: Seats)
    reads seats.Keys, set b | b in seats.Keys :: b.data
  {
    forall b :: b in seats ==> b.data.Length == SIZE && b.Valid() && b.Contents() == Bytes(seats[b].messages)
  }

  /** The buffers are where the model says and hold what it says. */
  ghost predicate Holds(seats: Seats, colour: bool, h: Hands, s: Log)
    reads seats.Keys, set b | b in seats.Keys :: b.data
  {
    Ties(seats, colour, h, s) && Apart(seats.Keys) && Stored(seats)
  }

  lemma StoredFour(a: FixedBuffer, b: FixedBuffer, c: FixedBuffer, d: FixedBuffer)
    requires forall x :: x in {a, b, c, d} ==> x.data.Length == SIZE && x.Valid() && x.Contents() == []
    ensures Stored(FourSeats(a, b, c, d))
  {
    hide Bytes;
    BytesOfNone();
  }

  /** Handing buffers over, or adding an empty one, changes no contents. */
  lemma StoredAlso(was: Seats, now: Seats, other: FixedBuffer)
    requires Stored(was) && now.Keys == was.Keys + {other}
    requires forall b :: b in was ==> now[b].messages == was[b].messages
    requires other in was || (other.data.Length == SIZE && other.Valid() && other.Contents() == [] && now[other].messages == [])
    ensures Stored(now)
  {
  }

  /** Only the buffers of the model matter. */
  lemma SameBuffers(seats: Seats, colour: bool, h: Hands, s: Log, t: Log)
    requires Holds(seats, colour, h, s)
    requires t.cur == s.cur && t.next == s.next && t.vec == s.vec && t.back1 == s.back1 && t.back2 == s.back2 && t.batch == s.batch
    ensures Holds(seats, colour, h, t)
  {
    hide Stored, Apart;
  }

  /** The room in the current buffer is the model's. */
  lemma Remaining(seats: Seats, colour: bool, h: Hands, s: Log)
    requires Holds(seats, colour, h, s)
    ensures h.cur in seats && h.cur.GetRemainLen() == Room(s.cur)
  {
    hide Bytes;
  }

  class AsyncLogging {
    var bufferCurrent: FixedBuffer
    var bufferNext: FixedBuffer?
    var bufferVector: seq<FixedBuffer>
    var running: bool
    // the backend thread
    var pc: Pc
    var bufferBack1: FixedBuffer?
    var bufferBack2: FixedBuffer?
    var bufferBackVec: seq<FixedBuffer>
    var written: nat
    /** What the log file has been given. */
    var output: seq<char>
    ghost var model: Log
    ghost var seats: Seats
    /** The colour of the front vector. */
    ghost var colour: bool

    ghost function Refs(): Hands
      reads this`bufferCurrent, this`bufferNext, this`bufferVector, this`bufferBack1, this`bufferBack2, this`bufferBackVec
    {
      Hands(bufferCurrent, bufferNext, bufferVector, bufferBack1, bufferBack2, bufferBackVec)
    }

    ghost predicate Sound()
      reads this`bufferCurrent, this`bufferNext, this`bufferVector, this`bufferBack1, this`bufferBack2, this`bufferBackVec
      reads this`model, this`seats, this`colour, seats.Keys, set b | b in seats.Keys :: b.data
    {
      Holds(seats, colour, Refs(), model)
    }

    ghost predicate Valid()
      reads this, seats.Keys, set b | b in seats.Keys :: b.data
    {
      && Sound() && Inv(model)
      && running == model.running && pc == model.pc && written == model.written && output == Bytes(model.out)
    }

    constructor ()
      ensures Valid() && model == START
      ensures running && pc == Head && output == [] && bufferVector == [] && bufferBackVec == []
      ensures bufferNext != null && bufferBack1 != null && bufferBack2 != null
      ensures forall b :: b in seats ==> fresh(b) && fresh(b.data)
    {
      hide Inv, Bytes, Apart, Ties, FourSeats, Stored;
      var a, b, c, d := FourBuffers();
      bufferCurrent, bufferNext, bufferVector, running := a, b, [], true;
      pc, bufferBack1, bufferBack2, bufferBackVec, written, output := Head, c, d, [], 0, [];
      model := START;
      seats, colour := FourSeats(a, b, c, d), true;
      new;
      StartInv();
      BytesOfNone();
    }

    /** Writes a message to the current buffer, if there is room for it. */
    method Fill(msg: seq<char>)
      requires Sound()
      modifies this`model, this`seats, bufferCurrent, bufferCurrent.data
      ensures Sound() && model == FillPart(old(model), msg) && seats.Keys == old(seats).Keys
    {
      hide Stored, Apart, Ties;
      Filled(seats, colour, Refs(), model, msg);
      Store(bufferCurrent, msg, seats, Current);
      seats := seats[bufferCurrent := Seat(Current, FillPart(model, msg).cur)];
      model := FillPart(model, msg);
    }

    /** Puts the current buffer aside and goes on with the spare or with a new buffer. */
    method Rotate()
      requires Sound() && Spare(model.next)
      modifies this`bufferVector, this`bufferCurrent, this`bufferNext, this`model, this`seats
      ensures Sound() && model == RotatePart(old(model)) && seats.Keys == old(seats).Keys + {bufferCurrent}
      ensures bufferCurrent in old(seats) || (fresh(bufferCurrent) && fresh(bufferCurrent.data))
    {
      if bufferNext != null {
        NextIn(seats, colour, Refs(), model);
        Replace(bufferNext);
      } else {
        var other := new FixedBuffer(SIZE);
        other.ResetCur();
        Replace(other);
      }
    }

    method Replace(other: FixedBuffer)
      requires Sound() && Spare(model.next) && Joins(seats, bufferNext, other)
      modifies this`bufferVector, this`bufferCurrent, this`bufferNext, this`model, this`seats
      ensures Sound() && model == RotatePart(old(model)) && seats.Keys == old(seats).Keys + {other}
      ensures bufferCurrent == other
    {
      hide Bytes, Holds, RotateSeats, Spare, RotatePart, Joins;
      RotatedHolds(seats, colour, Refs(), model, other);
      ghost var now := RotateSeats(seats, colour, Refs(), model, other);
      bufferVector, bufferCurrent, bufferNext := bufferVector + [bufferCurrent], other, null;
      seats, model := now, RotatePart(model);
    }

    /** The room is measured in the right buffer. */
    lemma AppendReady(msg: seq<char>)
      requires Valid()
      ensures bufferCurrent in seats && bufferCurrent.GetRemainLen() == Room(model.cur) && Spare(model.next)
      ensures Inv(AppendStep(model, msg))
    {
      hide Bytes, Holds, AppendStep;
      InvKept(model, LogModel.Append(msg));
      Remaining(seats, colour, Refs(), model);
    }

    /** A producer's call, under the lock. */
    method Append(msg: seq<char>)
      requires Valid()
      modifies this, seats.Keys, set b | b in seats.Keys :: b.data
      ensures Valid() && model == AppendStep(old(model), msg)
      ensures seats.Keys == old(seats).Keys + {bufferCurrent}
      ensures bufferCurrent in old(seats) || (fresh(bufferCurrent) && fresh(bufferCurrent.data))
    {
      hide Bytes, Holds, Inv, Sound, AppendStep, RotatePart, FillPart;
      AppendReady(msg);
      AppendedLog(model, msg);
      if bufferCurrent.GetRemainLen() < |msg| {
        Rotate();
      }
      Fill(msg);
    }

    /** Empties a buffer at its new place. */
    method Reset(b: FixedBuffer, p: Place)
      requires b in seats && Stored(seats)
      modifies b`cur, this`seats
      ensures seats == old(seats)[b := Seat(p, [])] && Stored(seats)
    {
      hide Bytes;
      BytesOfNone();
      b.ResetCur();
      seats := seats[b := Seat(p, [])];
    }

    /** Resetting an empty buffer changes nothing. */
    method ResetEmpty(b: FixedBuffer)
      requires b in seats && seats[b].messages == [] && Sound()
      modifies b`cur
      ensures Sound()
    {
      hide Bytes, Ties, Apart;
      BytesOfNone();
      b.ResetCur();
    }

    /** The vectors are swapped, not their elements. */
    method SwapVectors()
      requires Sound()
      modifies this`bufferVector, this`bufferBackVec, this`colour, this`model
      ensures Sound() && model == VectorsPart(old(model))
    {
      hide Holds;
      VectorsSwapped(seats, colour, Refs(), model);
      bufferBackVec, bufferVector := bufferVector, bufferBackVec;
      colour, model := !colour, VectorsPart(model);
    }

    /** The current buffer joins the batch, and the first spare becomes the current one. */
    method GiveCurrent()
      requires Sound() && model.back1 == Some([]) && bufferBack1 != null
      modifies this`seats, this`bufferBackVec, this`bufferCurrent, this`bufferBack1, this`model, bufferBack1
      ensures Sound() && model == GiveCurrentPart(old(model)) && seats.Keys == old(seats).Keys
    {
      hide Holds, GiveSeats, GiveCurrentPart;
      GivenHolds(seats, colour, Refs(), model);
      ghost var now := GiveSeats(seats, colour, Refs(), model);
      bufferBackVec := bufferBackVec + [bufferCurrent];
      bufferCurrent, bufferBack1 := bufferBack1, null;
      seats, model := now, GiveCurrentPart(model);
      ResetEmpty(bufferCurrent);
    }

    method TakeBatch()
      requires Sound() && model.back1 == Some([]) && bufferBack1 != null
      modifies this`seats, this`bufferVector, this`bufferBackVec, this`bufferCurrent, this`bufferBack1, this`colour,
               this`model, bufferBack1
      ensures Sound() && model == GiveCurrentPart(VectorsPart(old(model))) && seats.Keys == old(seats).Keys
    {
      hide Sound;
      SwapVectors();
      GiveCurrent();
    }

    /** The second spare becomes the front's. */
    method GiveNext()
      requires Sound() && model.back2 == Some([]) && bufferBack2 != null && bufferNext == null
      modifies this`seats, this`bufferNext, this`bufferBack2, this`model, bufferBack2
      ensures Sound() && model == GiveNextPart(old(model)) && seats.Keys == old(seats).Keys
    {
      hide Holds;
      NextGiven(seats, colour, Refs(), model);
      ghost var now := seats[bufferBack2 := Seat(Next, [])];
      bufferNext, bufferBack2 := bufferBack2, null;
      seats, model := now, GiveNextPart(model);
      ResetEmpty(bufferNext);
    }

    /** The pointers the swap moves from are there. */
    lemma SwapReady()
      requires Valid() && pc == Wait
      ensures bufferBack1 != null && bufferBack1 in seats && model.back1 == Some([]) && CanSwap(model)
      ensures bufferBack2 != null && bufferBack2 in seats && model.back2 == Some([]) && (bufferNext == null <==> model.next.None?)
      ensures Inv(SwapStep(model))
    {
      hide Bytes, Ties, Stored, Apart, Inv;
      InvSafe(model, LogModel.Swap);
      InvKept(model, LogModel.Swap);
      Swappable(seats, colour, Refs(), model);
    }

    /** The backend's critical section: takes the full buffers and the current one, and gives back its spares. */
    method Swap()
      requires Valid() && pc == Wait
      modifies this, seats.Keys
      ensures Valid() && model == SwapStep(old(model)) && seats.Keys == old(seats).Keys
    {
      hide Bytes, Ties, Stored, Apart, Inv, Sound, SwapStep, GiveCurrentPart, GiveNextPart, VectorsPart;
      ghost var s := model;
      SwapReady();
      SwappedLog(s);
      TakeBatch();
      if bufferNext == null {
        GiveNext();
      }
      pc, written := Cut, 0;
    }

    /** A batch of too many buffers keeps its first two. */
    method CutBatch()
      requires Valid() && pc == Cut
      modifies this
      ensures Valid() && model == CutStep(old(model)) && seats.Keys == old(seats).Keys
    {
      hide Bytes, Holds, Inv;
      InvKept(model, LogModel.CutBatch);
      Shortened(seats, colour, Refs(), model);
      if |bufferBackVec| > CROWD {
        bufferBackVec := bufferBackVec[..2];
        SameBuffers(seats, colour, Refs(), model.(batch := model.batch[..2]), CutStep(model));
      } else {
        SameBuffers(seats, colour, Refs(), model, CutStep(model));
      }
      pc, model := Write, CutStep(model);
    }

    /** Gives one buffer of the batch to the log file; after the last one the backend goes on. */
    method WriteOne()
      requires Valid() && pc == Write
      modifies this
      ensures Valid() && model == WriteStep(old(model)) && seats.Keys == old(seats).Keys
    {
      hide Bytes, Holds, Inv, FixedBuffer.Valid, FixedBuffer.Contents;
      InvKept(model, LogModel.WriteOne);
      Batch(seats, colour, Refs(), model);
      SameBuffers(seats, colour, Refs(), model, WriteStep(model));
      if written < |bufferBackVec| {
        BytesConcat(model.out, model.batch[written]);
        output := output + bufferBackVec[written].Contents();
        written := written + 1;
      } else {
        pc := Recycle;
      }
      model := WriteStep(model);
    }

    /** Takes the last buffer off the batch and empties it for a place among the spares. */
    method PopBack(p: Place) returns (b: FixedBuffer)
      requires Sound() && bufferBackVec != [] && model.batch != [] && !p.Slot?
      modifies this`bufferBackVec, this`seats, this`model, bufferBackVec[|bufferBackVec| - 1]
      ensures Sound() && b in seats && seats[b] == Seat(p, []) && seats.Keys == old(seats).Keys
      ensures bufferBackVec == old(bufferBackVec)[..|old(bufferBackVec)| - 1] && model == PopPart(old(model))
    {
      hide Bytes, Ties, Stored, Apart;
      Popped(seats, colour, Refs(), model, p);
      b := bufferBackVec[|bufferBackVec| - 1];
      bufferBackVec := bufferBackVec[..|bufferBackVec| - 1];
      Reset(b, p);
      model := PopPart(model);
    }

    method RefillBack1()
      requires Sound() && bufferBackVec != [] && model.batch != [] && bufferBack1 == null && model.back1.None?
      modifies this`bufferBackVec, this`bufferBack1, this`seats, this`model, bufferBackVec[|bufferBackVec| - 1]
      ensures Sound() && seats.Keys == old(seats).Keys && bufferBackVec == old(bufferBackVec)[..|old(bufferBackVec)| - 1]
      ensures model == RefillBack1Part(old(model))
    {
      hide Holds, PopPart;
      var b := PopBack(Back1);
      Taken(seats, colour, Refs(), model, b);
      bufferBack1, model := b, model.(back1 := Some([]));
    }

    method RefillBack2()
      requires Sound() && bufferBackVec != [] && model.batch != [] && bufferBack2 == null && model.back2.None?
      modifies this`bufferBackVec, this`bufferBack2, this`seats, this`model, bufferBackVec[|bufferBackVec| - 1]
      ensures Sound() && seats.Keys == old(seats).Keys && bufferBackVec == old(bufferBackVec)[..|old(bufferBackVec)| - 1]
      ensures model == RefillBack2Part(old(model))
    {
      hide Holds, PopPart;
      var b := PopBack(Back2);
      Taken(seats, colour, Refs(), model, b);
      bufferBack2, model := b, model.(back2 := Some([]));
    }

    method Trim()
      requires Sound()
      modifies this`bufferBackVec, this`model
      ensures Sound() && model == TrimPart(old(model)) && |bufferBackVec| == |model.batch|
      ensures bufferBackVec == if |old(bufferBackVec)| > 2 then old(bufferBackVec)[..2] else old(bufferBackVec)
    {
      hide Holds;
      Shortened(seats, colour, Refs(), model);
      if |bufferBackVec| > 2 {
        bufferBackVec := bufferBackVec[..2];
      }
      model := TrimPart(model);
    }

    /** Every missing spare is replaced from the batch. */
    method RefillSpares()
      requires Sound() && bufferBack1 == null && model.back1.None? && (bufferBack2 == null <==> model.back2.None?)
      requires |model.batch| == |bufferBackVec| >= (if bufferBack2 == null then 2 else 1)
      requires forall b :: b in bufferBackVec ==> b in seats
      modifies this`bufferBackVec, this`bufferBack1, this`bufferBack2, this`seats, this`model, bufferBackVec
      ensures Sound() && seats.Keys == old(seats).Keys
      ensures model == RefillBack2Part(RefillBack1Part(old(model)))
    {
      hide Bytes, Holds;
      if bufferBack1 == null {
        RefillBack1();
      }
      if bufferBack2 == null {
        RefillBack2();
      }
    }

    /** What is left of the batch is given up. */
    method Clear()
      requires Sound()
      modifies this`bufferBackVec, this`model
      ensures Sound() && model == ClearPart(old(model))
    {
      hide Holds;
      Dropped(seats, colour, Refs(), model);
      bufferBackVec, model := [], ClearPart(model);
    }

    /** The written batch is used up. */
    method EmptyBatch()
      requires Sound() && bufferBack1 == null && model.back1.None? && (bufferBack2 == null <==> model.back2.None?)
      requires |model.batch| == |bufferBackVec| >= (if bufferBack2 == null then 2 else 1)
      requires (forall b :: b in bufferBackVec ==> b in seats) && CanRecycle(model)
      modifies this`bufferBackVec, this`bufferBack1, this`bufferBack2, this`seats, this`model, bufferBackVec
      ensures Sound() && seats.Keys == old(seats).Keys && model == RecycleStep(old(model))
    {
      hide Bytes, Holds, RefillBack1Part, RefillBack2Part, PopPart;
      Trim();
      RefillSpares();
      Clear();
    }

    /** The batch can fill every missing spare. */
    lemma RecycleReady()
      requires Valid() && pc == Recycle
      ensures bufferBack1 == null && model.back1.None? && (bufferBack2 == null <==> model.back2.None?)
      ensures |model.batch| == |bufferBackVec| >= (if bufferBack2 == null then 2 else 1)
      ensures (forall b :: b in bufferBackVec ==> b in seats) && CanRecycle(model) && Inv(RecycleStep(model))
    {
      hide Bytes, Ties, Stored, Apart, Inv, RecycleStep;
      InvSafe(model, LogModel.RecycleAll);
      InvKept(model, LogModel.RecycleAll);
      Recyclable(seats, colour, Refs(), model);
    }

    /** Refills the spares from the batch and drops the rest. */
    method RecycleAll()
      requires Valid() && pc == Recycle
      modifies this, seats.Keys
      ensures Valid() && model == RecycleStep(old(model)) && seats.Keys == old(seats).Keys
    {
      hide Bytes, Ties, Stored, Apart, RecycleStep, Inv, Sound;
      RecycleReady();
      RecycledLog(model);
      EmptyBatch();
      pc, written := Head, 0;
    }

    /** The head of the backend's loop. */
    method Check()
      requires Valid() && pc == Head
      modifies this
      ensures Valid() && model == Step(old(model), LogModel.Check) && seats.Keys == old(seats).Keys
    {
      hide Bytes, Holds, Inv;
      InvKept(model, LogModel.Check);
      pc := if running then Wait else Done;
      SameBuffers(seats, colour, Refs(), model, Step(model, LogModel.Check));
      model := Step(model, LogModel.Check);
    }

    method Stop()
      requires Valid()
      modifies this
      ensures Valid() && model == Step(old(model), LogModel.Stop) && seats.Keys == old(seats).Keys
    {
      hide Bytes, Holds, Inv;
      InvKept(model, LogModel.Stop);
      running := false;
      SameBuffers(seats, colour, Refs(), model, Step(model, LogModel.Stop));
      model := Step(model, LogModel.Stop);
    }
  }

  /** A buffer takes a message, and with it its seat's messages grow. */
  method Store(b: FixedBuffer, msg: seq<char>, ghost seats: Seats, ghost p: Place)
    requires b in seats && Stored(seats) && Apart(seats.Keys)
    modifies b, b.data
    ensures Stored(seats[b := Seat(p, LogModel.Put(seats[b].messages, msg))])
  {
    hide Bytes, Room, LogModel.Put;
    BytesPut(seats[b].messages, msg);
    var _ := b.Append(msg);
  }

  lemma NextIn(seats: Seats, colour: bool, h: Hands, s: Log)
    requires Ties(seats, colour, h, s)
    ensures h.next != null ==> h.next in seats
  {
  }

  ghost function FourSeats(a: FixedBuffer, b: FixedBuffer, c: FixedBuffer, d: FixedBuffer): Seats {
    map[a := Seat(Current, []), b := Seat(Next, []), c := Seat(Back1, []), d := Seat(Back2, [])]
  }

  method FourBuffers() returns (a: FixedBuffer, b: FixedBuffer, c: FixedBuffer, d: FixedBuffer)
    ensures Stored(FourSeats(a, b, c, d)) && Apart(FourSeats(a, b, c, d).Keys)
    ensures Ties(FourSeats(a, b, c, d), true, Hands(a, b, [], c, d, []), START)
    ensures forall x :: x in FourSeats(a, b, c, d) ==> fresh(x) && fresh(x.data)
  {
    a := new FixedBuffer(SIZE);
    b := new FixedBuffer(SIZE);
    c := new FixedBuffer(SIZE);
    d := new FixedBuffer(SIZE);
    hide Stored, FourSeats, Apart, Ties;
    FourKeys(a, b, c, d);
    StoredFour(a, b, c, d);
  }

  lemma FourKeys(a: FixedBuffer, b: FixedBuffer, c: FixedBuffer, d: FixedBuffer)
    requires a != b && a != c && a != d && b != c && b != d && c != d
    requires a.data != b.data && a.data != c.data && a.data != d.data
    requires b.data != c.data && b.data != d.data && c.data != d.data
    ensures FourSeats(a, b, c, d).Keys == {a, b, c, d} && Apart(FourSeats(a, b, c, d).Keys)
    ensures Ties(FourSeats(a, b, c, d), true, Hands(a, b, [], c, d, []), START)
  {
  }

  lemma Filled(seats: Seats, colour: bool, h: Hands, s: Log, m: Msg)
    requires Ties(seats, colour, h, s)
    ensures h.cur in seats && seats[h.cur].messages == s.cur
    ensures Ties(seats[h.cur := Seat(Current, FillPart(s, m).cur)], colour, h, FillPart(s, m))
    ensures seats[h.cur := Seat(Current, FillPart(s, m).cur)].Keys == seats.Keys
  {
  }

  ghost function RotateSeats(seats: Seats, colour: bool, h: Hands, s: Log, other: FixedBuffer): Seats {
    seats[h.cur := Seat(Slot(colour, |h.vec|), s.cur)][other := Seat(Current, [])]
  }

  lemma Rotated(seats: Seats, colour: bool, h: Hands, s: Log, other: FixedBuffer)
    requires Ties(seats, colour, h, s) && Apart(seats.Keys) && Spare(s.next)
    requires if h.next != null then other == h.next else other !in seats && forall b :: b in seats ==> b.data != other.data
    ensures var r := RotateSeats(seats, colour, h, s, other);
      && (h.next != null ==> h.next in seats) && r.Keys == seats.Keys + {other} && Apart(r.Keys)
      && h.cur in seats && seats[h.cur].messages == s.cur
      && (forall b :: b in seats ==> r[b].messages == seats[b].messages)
      && r[other].messages == []
      && Ties(r, colour, Hands(other, null, h.vec + [h.cur], h.back1, h.back2, h.batch), RotatePart(s))
  {
  }

  /** The buffer to go on with is the spare, or a new and empty one. */
  ghost predicate Joins(seats: Seats, next: FixedBuffer?, other: FixedBuffer)
    reads other, other.data
  {
    if next != null then other == next
    else
      && other !in seats && (forall b :: b in seats ==> b.data != other.data)
      && other.data.Length == SIZE && other.Valid() && other.Contents() == []
  }

  lemma RotatedHolds(seats: Seats, colour: bool, h: Hands, s: Log, other: FixedBuffer)
    requires Holds(seats, colour, h, s) && Spare(s.next) && Joins(seats, h.next, other)
    ensures var r := RotateSeats(seats, colour, h, s, other);
      r.Keys == seats.Keys + {other}
      && Holds(r, colour, Hands(other, null, h.vec + [h.cur], h.back1, h.back2, h.batch), RotatePart(s))
  {
    hide Bytes, Apart, Ties, RotateSeats, Stored, Spare, RotatePart, FixedBuffer.Valid, FixedBuffer.Contents;
    Rotated(seats, colour, h, s, other);
    StoredAlso(seats, RotateSeats(seats, colour, h, s, other), other);
  }

  lemma BytesOfNone()
    ensures Bytes([]) == []
  {
  }

  lemma StartInv()
    ensures Inv(START)
  {
    assert Bytes([]) == [];
  }

  lemma BytesPut(b: Buf, m: Msg)
    ensures Room(b) == SIZE - |Bytes(b)|
    ensures Bytes(LogModel.Put(b, m)) == if |m| < Room(b) then Bytes(b) + m else Bytes(b)
  {
    BytesLast(b, m);
  }

  /** The batch holds what the model's batch holds. */
  lemma Batch(seats: Seats, colour: bool, h: Hands, s: Log)
    requires Holds(seats, colour, h, s)
    ensures |h.batch| == |s.batch|
    ensures forall i :: 0 <= i < |h.batch| ==> h.batch[i] in seats && h.batch[i].Valid() && h.batch[i].Contents() == Bytes(s.batch[i])
  {
    hide Bytes;
  }

  lemma Popped(seats: Seats, colour: bool, h: Hands, s: Log, p: Place)
    requires Ties(seats, colour, h, s) && h.batch != [] && !p.Slot?
    ensures h.batch[|h.batch| - 1] in seats
    ensures seats[h.batch[|h.batch| - 1] := Seat(p, [])].Keys == seats.Keys
    ensures Ties(seats[h.batch[|h.batch| - 1] := Seat(p, [])], colour, h.(batch := h.batch[..|h.batch| - 1]), PopPart(s))
  {
  }

  /** The batch has a buffer for every missing spare. */
  lemma Recyclable(seats: Seats, colour: bool, h: Hands, s: Log)
    requires Ties(seats, colour, h, s) && Inv(s) && s.pc == Recycle
    ensures h.back1 == null && s.back1.None? && (h.back2 == null <==> s.back2.None?)
    ensures |h.batch| == |s.batch| && |h.batch| >= if h.back2 == null then 2 else 1
    ensures forall b :: b in h.batch ==> b in seats
    ensures s.back2.Some? ==> s.back2.value == []
  {
    hide Bytes;
  }

  /** What recycling leaves alone. */
  lemma RecycledLog(s: Log)
    requires CanRecycle(s)
    ensures var r := RecycleStep(s); r.pc == Head && r.written == 0 && r.out == s.out && r.running == s.running
  {
  }

  /** A buffer taken off the batch becomes a spare. */
  lemma Taken(seats: Seats, colour: bool, h: Hands, s: Log, b: FixedBuffer)
    requires Holds(seats, colour, h, s) && b in seats
    ensures seats[b] == Seat(Back1, []) ==> Holds(seats, colour, h.(back1 := b), s.(back1 := Some([])))
    ensures seats[b] == Seat(Back2, []) ==> Holds(seats, colour, h.(back2 := b), s.(back2 := Some([])))
  {
    hide Stored, Apart;
  }

  lemma Dropped(seats: Seats, colour: bool, h: Hands, s: Log)
    requires Holds(seats, colour, h, s)
    ensures Holds(seats, colour, h.(batch := []), ClearPart(s))
  {
    hide Stored, Apart;
  }

  lemma Shortened(seats: Seats, colour: bool, h: Hands, s: Log)
    requires Holds(seats, colour, h, s)
    ensures |h.batch| == |s.batch|
    ensures |h.batch| >= 2 ==> Holds(seats, colour, h.(batch := h.batch[..2]), s.(batch := s.batch[..2]))
  {
    hide Stored, Apart;
  }

  lemma VectorsSwapped(seats: Seats, colour: bool, h: Hands, s: Log)
    requires Holds(seats, colour, h, s)
    ensures Holds(seats, !colour, h.(vec := h.batch, batch := h.vec), VectorsPart(s))
  {
    hide Stored, Apart;
  }

  ghost function GiveSeats(seats: Seats, colour: bool, h: Hands, s: Log): Seats
    requires h.back1 != null
  {
    seats[h.cur := Seat(Slot(!colour, |h.batch|), s.cur)][h.back1 := Seat(Current, [])]
  }

  lemma Given(seats: Seats, colour: bool, h: Hands, s: Log)
    requires Ties(seats, colour, h, s) && h.back1 != null && s.back1 == Some([])
    ensures h.cur in seats && h.back1 in seats
    ensures var r := GiveSeats(seats, colour, h, s);
      r.Keys == seats.Keys && r[h.back1].messages == [] && (forall b :: b in seats ==> r[b].messages == seats[b].messages)
      && Ties(r, colour, Hands(h.back1, h.next, h.vec, null, h.back2, h.batch + [h.cur]), GiveCurrentPart(s))
  {
  }

  lemma GivenHolds(seats: Seats, colour: bool, h: Hands, s: Log)
    requires Holds(seats, colour, h, s) && h.back1 != null && s.back1 == Some([])
    ensures var r := GiveSeats(seats, colour, h, s);
      r.Keys == seats.Keys && h.back1 in seats && r[h.back1].messages == []
      && Holds(r, colour, Hands(h.back1, h.next, h.vec, null, h.back2, h.batch + [h.cur]), GiveCurrentPart(s))
  {
    hide Ties, Apart, Stored, GiveSeats, GiveCurrentPart;
    Given(seats, colour, h, s);
    StoredAlso(seats, GiveSeats(seats, colour, h, s), h.cur);
  }

  lemma NextGiven(seats: Seats, colour: bool, h: Hands, s: Log)
    requires Holds(seats, colour, h, s) && h.back2 != null && s.back2 == Some([]) && h.next == null
    ensures var now := seats[h.back2 := Seat(Next, [])];
      now.Keys == seats.Keys && now[h.back2].messages == []
      && Holds(now, colour, h.(next := h.back2, back2 := null), GiveNextPart(s))
  {
    hide Stored, Apart;
    StoredAlso(seats, seats[h.back2 := Seat(Next, [])], h.back2);
  }

  /** Every spare the swap takes is there. */
  lemma Swappable(seats: Seats, colour: bool, h: Hands, s: Log)
    requires Ties(seats, colour, h, s) && Inv(s) && s.pc == Wait
    ensures h.back1 != null && h.back1 in seats && s.back1 == Some([])
    ensures h.back2 != null && h.back2 in seats && s.back2 == Some([])
    ensures (h.next == null <==> s.next.None?)
  {
    hide Bytes;
  }

  /** What appending leaves alone. */
  lemma AppendedLog(s: Log, m: Msg)
    ensures var r := AppendStep(s, m);
      r.pc == s.pc && r.written == s.written && r.out == s.out && r.running == s.running
    ensures AppendStep(s, m) == FillPart(if Room(s.cur) < |m| then RotatePart(s) else s, m)
  {
  }

  lemma SwappedLog(s: Log)
    requires CanSwap(s)
    ensures var r := SwapStep(s); r.pc == Cut && r.written == 0 && r.out == s.out && r.running == s.running
    ensures var t := GiveCurrentPart(VectorsPart(s));
      t.next == s.next && t.back2 == s.back2 && SwapStep(s) == if s.next.None? then GiveNextPart(t) else t
  {
  }

  lemma BytesLast(b: seq<Msg>, m: Msg)
    ensures Bytes(b + [m]) == Bytes(b) + m
  {
    assert (b + [m])[..|b|] == b;
  }

  lemma {:induction false} BytesConcat(a: seq<Msg>, b: seq<Msg>)
    ensures Bytes(a + b) == Bytes(a) + Bytes(b)
  {
    hide Bytes;
    if b == [] {
      assert a + b == a;
      BytesOfNone();
    } else {
      var front, last := b[..|b| - 1], b[|b| - 1];
      assert b == front + [last] && a + b == a + front + [last];
      BytesConcat(a, front);
      BytesLast(front, last);
      BytesLast(a + front, last);
    }
  }
}
