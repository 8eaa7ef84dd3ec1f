/** The logger's buffer: a fixed array and a write position. */
module Fixed {
  import opened Truncation

  /** The room is compared with the length cast to int: a length that does not fit may pass as a small or negative one. */
  predicate Overruns(len: nat, room: int) {
    ToInt(len) < room <= len
  }

  /** Exactly which lengths write beyond the array: none below 2^31, and of the others those cast below the room. */
  lemma OverrunsWhen(len: nat, room: nat)
    requires room < 0x8000_0000
    ensures Overruns(len, room) <==> len >= 0x8000_0000 && !(room <= len % 0x1_0000_0000 < 0x8000_0000)
  {
    if len < 0x8000_0000 { assert len % 0x1_0000_0000 == len; }
  }

  lemma SmallEnough(len: nat, room: int)
    ensures len < room ==> ToInt(len) < room
  {
  }

  /** Even a full buffer takes 2^31 bytes. */
  lemma FullBufferOverruns()
    ensures Overruns(0x8000_0000, 0) && !Overruns(0x7fff_ffff, 0)
  {
  }

  class FixedBuffer {
    const data: array<char>
    var cur: nat

    constructor (size: nat)
      ensures Valid() && data.Length == size && Contents() == [] && fresh(data)
    {
      data := new char[size];
      cur := 0;
    }

    ghost predicate Valid()
      reads this
    {
      cur <= data.Length
    }

    function Contents(): seq<char>
      reads this, data
      requires Valid()
    {
      data[..cur]
    }

    function GetRemainLen(): int
      reads this
    {
      data.Length - cur
    }

    /** A copy beyond the array is reported and not carried out. */
    method Append(msg: seq<char>) returns (overrun: bool)
      requires Valid()
      modifies this, data
      ensures Valid()
      ensures Contents() == if |msg| < data.Length - old(cur) then old(Contents()) + msg else old(Contents())
      ensures overrun <==> Overruns(|msg|, data.Length - old(cur))
    {
      SmallEnough(|msg|, GetRemainLen());
      overrun := false;
      if ToInt(|msg|) < GetRemainLen() {
        if |msg| < GetRemainLen() {
          forall i | 0 <= i < |msg| { data[cur + i] := msg[i]; }
          cur := cur + |msg|;
        } else {
          overrun := true;
        }
      }
    }

    /** Takes over bytes that were written behind the write position. */
    method AddCurPos(len: nat)
      requires Valid() && len <= GetRemainLen()
      modifies this`cur
      ensures Valid() && Contents() == old(Contents()) + data[old(cur)..old(cur) + len]
    {
      cur := cur + len;
    }

    method ResetCur()
      modifies this`cur
      ensures Valid() && Contents() == []
    {
      cur := 0;
    }
  }
}
