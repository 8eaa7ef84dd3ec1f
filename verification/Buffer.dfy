/** The byte queue in front of and behind a socket: an array that is compacted in place or grown. */
module ByteBuffer {

  /** Size of the stack area that `ReadFd` adds to the free part of the buffer. */
  const EXTRA: nat := 65536

  class Buffer {
    var buffer: array<char>
    var writeIndex: nat
    var readIndex: nat
    /** Everything ever appended, and how much of it has been consumed. */
    ghost var appended: seq<char>
    ghost var consumed: nat

    constructor (size: nat)
      ensures Valid() && fresh(buffer) && buffer.Length == size && appended == [] && consumed == 0
    {
      buffer := new char[size];
      writeIndex, readIndex := 0, 0;
      appended, consumed := [], 0;
    }

    /** The indices are in order, and the window between them is what was appended and not yet consumed. */
    ghost predicate Valid()
      reads this, buffer
    {
      && readIndex <= writeIndex <= buffer.Length
      && consumed <= |appended| && Readable() == appended[consumed..]
    }

    function Readable(): seq<char>
      reads this, buffer
      requires readIndex <= writeIndex <= buffer.Length
    {
      buffer[readIndex..writeIndex]
    }

    function GetWriteableLen(): int
      reads this
    {
      buffer.Length - writeIndex
    }

    function GetReadableLen(): int
      reads this
    {
      writeIndex - readIndex
    }

    function GetPreEmptyLen(): int
      reads this
    {
      readIndex
    }

    /** Moves to a longer array with the same bytes at its front. */
    method Resize(size: nat)
      requires size >= buffer.Length
      modifies this`buffer
      ensures fresh(buffer) && buffer.Length == size && buffer[..old(buffer.Length)] == old(buffer[..])
    {
      var grown := new char[size];
      var k := 0;
      while k < buffer.Length
        invariant k <= buffer.Length && grown[..k] == buffer[..k]
        modifies grown
      {
        grown[k] := buffer[k];
        k := k + 1;
      }
      buffer := grown;
    }

    /** Copies the window to the front of the array, byte by byte. */
    method CopyDown(dataSize: nat)
      requires readIndex + dataSize <= buffer.Length
      modifies buffer
      ensures buffer[..dataSize] == old(buffer[readIndex..readIndex + dataSize])
    {
      var k := 0;
      while k < dataSize
        invariant 0 <= k <= dataSize
        invariant forall j :: 0 <= j < k ==> buffer[j] == old(buffer[readIndex + j])
        invariant forall j :: k <= j < buffer.Length ==> buffer[j] == old(buffer[j])
      {
        buffer[k] := buffer[readIndex + k];
        k := k + 1;
      }
    }

    /** Grows the array if its free parts are too small together, or moves the window to the front. */
    method MakeSpace(len: nat)
      requires Valid()
      modifies this`buffer, this`readIndex, this`writeIndex, buffer
      ensures Valid() && Readable() == old(Readable()) && GetWriteableLen() >= len
      ensures buffer == old(buffer) || fresh(buffer)
      ensures buffer.Length <= old(buffer.Length) || buffer.Length < |old(Readable())| + 2 * len
    {
      ghost var all := buffer[..];
      if GetWriteableLen() + GetPreEmptyLen() < len {
        Resize(writeIndex + len);
        assert buffer[readIndex..writeIndex] == buffer[..|all|][readIndex..writeIndex];
      } else {
        var dataSize := GetReadableLen();
        CopyDown(dataSize);
        readIndex, writeIndex := 0, dataSize;
      }
    }

    /** Copies bytes into the array from `start` on and advances the write position by their number. */
    method CopyIn(start: nat, part: seq<char>)
      requires start <= writeIndex && writeIndex + |part| <= buffer.Length
      modifies this`writeIndex, buffer
      ensures writeIndex == old(writeIndex) + |part| && buffer[..start] == old(buffer[..start])
      ensures buffer[start..] == part + old(buffer[start..])[|part|..]
    {
      forall j | 0 <= j < |part| { buffer[start + j] := part[j]; }
      writeIndex := writeIndex + |part|;
    }

    method Append(msg: seq<char>)
      requires Valid()
      modifies this, buffer
      ensures Valid() && Readable() == old(Readable()) + msg
      ensures appended == old(appended) + msg && consumed == old(consumed)
      ensures buffer == old(buffer) || fresh(buffer)
      ensures buffer.Length <= old(buffer.Length) || buffer.Length < |old(Readable())| + 2 * |msg|
    {
      if GetWriteableLen() < |msg| {
        MakeSpace(|msg|);
      }
      Push(msg);
    }

    /** Appends what fits behind the window. */
    method Push(msg: seq<char>)
      requires Valid() && |msg| <= GetWriteableLen()
      modifies this`writeIndex, this`appended, buffer
      ensures Valid() && Readable() == old(Readable()) + msg
      ensures appended == old(appended) + msg && writeIndex == old(writeIndex) + |msg|
    {
      ghost var head, tail := buffer[..writeIndex], buffer[writeIndex..];
      CopyIn(writeIndex, msg);
      assert buffer[..] == buffer[..|head|] + buffer[|head|..];
      Windowed(head, msg, tail[|msg|..], readIndex);
      QueueGrows(appended, consumed, msg);
      assert Readable() == buffer[..][readIndex..writeIndex];
      appended := appended + msg;
    }

    /** Consumes what a write or a parser has used. */
    method HaveReadForLen(len: nat)
      requires Valid() && len <= GetReadableLen()
      modifies this`readIndex, this`consumed
      ensures Valid() && Readable() == old(Readable())[len..]
      ensures consumed == old(consumed) + len
    {
      ghost var window := Readable();
      assert window[len..] == appended[consumed + len..];
      readIndex := readIndex + len;
      consumed := consumed + len;
      assert Readable() == window[len..];
    }

    method HaveReadAll()
      requires Valid()
      modifies this`readIndex, this`consumed
      ensures Valid() && Readable() == [] && consumed == |appended|
    {
      readIndex := writeIndex;
      consumed := |appended|;
    }

    /** A longer read fills the array; what has gone to the extra area is appended. */
    method ReadSpills(part: seq<char>)
      requires Valid() && |part| > GetWriteableLen()
      modifies this, buffer
      ensures Valid() && Readable() == old(Readable()) + part
      ensures buffer == old(buffer) || fresh(buffer)
    {
      var writeableLen := GetWriteableLen();
      Push(part[..writeableLen]);
      Append(part[writeableLen..]);
      assert part[..writeableLen] + part[writeableLen..] == part;
    }

    /** Between two reads that fit: the array is the old one up to the start, then what the reads have left. */
    ghost predicate Filling(head: seq<char>, free: seq<char>, parts: seq<seq<char>>)
      reads this, buffer
    {
      && buffer[..] == head + Overlay(free, parts) && writeIndex == |head| + Total(parts) <= buffer.Length
      && readIndex <= |head| && consumed <= |appended| && head[readIndex..] == appended[consumed..]
    }

    method ReadFits(start: nat, part: seq<char>, ghost head: seq<char>, ghost free: seq<char>, ghost parts: seq<seq<char>>)
      requires Filling(head, free, parts) && start == |head| && writeIndex + |part| <= buffer.Length
      modifies this`writeIndex, buffer
      ensures Filling(head, free, parts + [part]) && writeIndex == old(writeIndex) + |part|
    {
      hide Overlay, Total;
      assert buffer[..start] == head && buffer[start..] == Overlay(free, parts);
      OneMore(free, parts, part);
      CopyIn(start, part);
      assert buffer[..] == buffer[..start] + buffer[start..];
    }

    /** One call: what does not fit the free part has gone to the extra area and is appended from there. */
    method ReadOnce(start: nat, part: seq<char>, ghost head: seq<char>, ghost free: seq<char>, ghost parts: seq<seq<char>>)
      returns (ghost spilled: bool)
      requires Filling(head, free, parts) && start == |head|
      requires writeIndex + |part| <= buffer.Length || parts == []
      modifies this, buffer
      ensures spilled == (|part| > old(buffer.Length) - start)
      ensures !spilled ==> Filling(head, free, parts + [part]) && buffer == old(buffer) && readIndex == old(readIndex)
      ensures !spilled ==> appended == old(appended) && consumed == old(consumed) && writeIndex == old(writeIndex) + |part|
      ensures spilled ==> Valid() && Readable() == head[old(readIndex)..] + part && (buffer == old(buffer) || fresh(buffer))
    {
      hide Overlay, Total;
      spilled := |part| > buffer.Length - start;
      if |part| <= buffer.Length - start {
        NoReads(free);
        ReadFits(start, part, head, free, parts);
      } else {
        NoReads(free);
        assert Readable() == buffer[..][readIndex..writeIndex];
        ReadSpills(part);
      }
    }

    /** After the last read that fits, what has landed counts as appended. */
    ghost method Settle(head: seq<char>, free: seq<char>, parts: seq<seq<char>>)
      requires Filling(head, free, parts) && Total(parts) <= |free|
      modifies this`appended
      ensures Valid() && appended == old(appended) + Landed(free, parts)
      ensures Readable() == head[readIndex..] + Landed(free, parts)
    {
      hide Overlay, Total, Landed;
      WindowLanded(head, free, parts, readIndex);
      QueueGrows(appended, consumed, Landed(free, parts));
      assert Readable() == buffer[..][readIndex..writeIndex];
      appended := appended + Landed(free, parts);
    }

    /**
     * Reads until a call returns nothing more; `parts` are the results of the calls. Every call is given the same
     * two areas: the free part that the buffer had at the start, and the extra one.
     */
    method ReadFd(parts: seq<seq<char>>) returns (receiveSum: nat)
      requires Valid() && Receivable(GetWriteableLen(), parts)
      modifies this, buffer
      ensures Valid() && receiveSum == Total(parts)
      ensures Readable() == old(Readable()) + Landed(old(buffer[writeIndex..]), parts)
      ensures |parts| <= 1 ==> Readable() == old(Readable()) + Concat(parts)
      ensures buffer == old(buffer) || fresh(buffer)
    {
      hide Overlay, Total, Concat, Landed;
      var start := writeIndex;
      ghost var free, before, head := buffer[writeIndex..], Readable(), buffer[..writeIndex];
      ghost var fits := Total(parts) <= GetWriteableLen();
      NoReads(free);
      Longest(parts);
      receiveSum := 0;
      var i := 0;
      assert parts[..0] == [] && buffer[..] == head + free;
      assert Filling(head, free, parts[..0]);
      hide Filling;
      while i < |parts|
        invariant 0 <= i <= |parts| && receiveSum == Total(parts[..i])
        invariant fits || i == 0 ==>
          buffer == old(buffer) && readIndex == old(readIndex) && writeIndex == start + receiveSum
          && Filling(head, free, parts[..i])
        invariant !fits && i == 1 ==> Valid() && Readable() == before + parts[0] && (buffer == old(buffer) || fresh(buffer))
      {
        NextPart(free, parts, i);
        ghost var spilled := ReadOnce(start, parts[i], head, free, parts[..i]);
        receiveSum := receiveSum + |parts[i]|;
        i := i + 1;
      }
      assert parts[..i] == parts;
      OneRead(free, parts);
      if fits {
        Settle(head, free, parts);
      }
    }
  }

  /** A window that goes on into the next part. */
  lemma Windowed(head: seq<char>, middle: seq<char>, tail: seq<char>, k: nat)
    requires k <= |head|
    ensures (head + (middle + tail))[k..|head| + |middle|] == head[k..] + middle
  {
  }

  lemma QueueGrows(appended: seq<char>, consumed: nat, more: seq<char>)
    requires consumed <= |appended|
    ensures (appended + more)[consumed..] == appended[consumed..] + more
  {
  }

  lemma NoReads(free: seq<char>)
    ensures Overlay(free, []) == free && Total([]) == 0
  {
  }

  lemma OneMore(free: seq<char>, parts: seq<seq<char>>, part: seq<char>)
    ensures Total(parts + [part]) == Total(parts) + |part|
    ensures Overlay(free, parts + [part]) ==
      part + if |part| <= |Overlay(free, parts)| then Overlay(free, parts)[|part|..] else []
  {
    assert (parts + [part])[..|parts|] == parts;
  }

  lemma NextPart(free: seq<char>, parts: seq<seq<char>>, i: nat)
    requires i < |parts|
    ensures parts[..i + 1] == parts[..i] + [parts[i]] && Total(parts[..i + 1]) == Total(parts[..i]) + |parts[i]|
    ensures Total(parts[..i + 1]) <= Total(parts) && (i + 1 == |parts| ==> parts[..i + 1] == parts)
  {
    hide Overlay, Total;
    TotalPart(parts, i + 1);
    OneMore(free, parts[..i], parts[i]);
    assert parts[..i + 1] == parts[..i] + [parts[i]];
  }

  /** A window that ends after the reads shows what they have left behind. */
  lemma WindowLanded(head: seq<char>, free: seq<char>, parts: seq<seq<char>>, k: nat)
    requires k <= |head| && Total(parts) <= |free|
    ensures (head + Overlay(free, parts))[k..|head| + Total(parts)] == head[k..] + Landed(free, parts)
  {
    hide Overlay, Total;
  }

  function Total(parts: seq<seq<char>>): nat {
    if parts == [] then 0 else Total(parts[..|parts| - 1]) + |parts[|parts| - 1]|
  }

  function Concat(parts: seq<seq<char>>): (r: seq<char>)
    ensures |r| == Total(parts)
  {
    if parts == [] then [] else Concat(parts[..|parts| - 1]) + parts[|parts| - 1]
  }

  /** Non-empty reads that fit their areas; one that spills into the extra area must be the only one. */
  predicate Receivable(writeable: int, parts: seq<seq<char>>) {
    && (forall r :: r in parts ==> r != [])
    && (Total(parts) <= writeable
        || (|parts| == 1 && |parts[0]| <= if writeable < EXTRA then writeable + EXTRA else writeable))
  }

  /** One call can receive this much. */
  lemma OneReadReceivable(writeable: nat, part: seq<char>)
    ensures Receivable(writeable, [part]) <==> part != [] && |part| <= if writeable < 65536 then writeable + 65536 else writeable
  {
    assert [part][..0] == [] && part in [part];
    assert Total([part]) == Total([]) + |part|;
  }

  /** The free area after the reads: each one starts at its beginning again. */
  function Overlay(free: seq<char>, parts: seq<seq<char>>): (r: seq<char>)
    ensures |r| >= |free|
  {
    if parts == [] then free else
      var x, last := Overlay(free, parts[..|parts| - 1]), parts[|parts| - 1];
      last + if |last| <= |x| then x[|last|..] else []
  }

  /** What the reads leave in the window. */
  function Landed(free: seq<char>, parts: seq<seq<char>>): seq<char> {
    var x := Overlay(free, parts);
    if Total(parts) <= |x| then x[..Total(parts)] else x
  }

  lemma {:induction false} TotalPart(parts: seq<seq<char>>, i: nat)
    requires i <= |parts|
    ensures Total(parts[..i]) <= Total(parts)
  {
    if i < |parts| {
      assert parts[..|parts| - 1][..i] == parts[..i];
      TotalPart(parts[..|parts| - 1], i);
    } else {
      assert parts[..i] == parts;
    }
  }

  /** No read is longer than all of them together. */
  lemma Longest(parts: seq<seq<char>>)
    ensures forall r :: r in parts ==> |r| <= Total(parts)
    decreases |parts|
  {
    if parts != [] { Longest(parts[..|parts| - 1]); }
  }

  lemma OneRead(free: seq<char>, parts: seq<seq<char>>)
    ensures |parts| <= 1 ==> Landed(free, parts) == Concat(parts)
    ensures |parts| == 1 ==> Concat(parts) == parts[0]
  {
    if |parts| == 1 {
      assert parts[..0] == [];
      assert Overlay(free, parts[..0]) == free;
    }
  }

  /** Of several non-empty reads none reaches the last byte of the window: it keeps what was there before. */
  lemma {:induction false} LastByteStale(free: seq<char>, parts: seq<seq<char>>, at: nat)
    requires at < |free| && forall r :: r in parts ==> |r| <= at
    ensures Overlay(free, parts)[at] == free[at]
  {
    if parts != [] {
      var front, last := parts[..|parts| - 1], parts[|parts| - 1];
      LastByteStale(free, front, at);
      assert last in parts && |last| <= at;
    }
  }

  lemma {:induction false} AllPositive(parts: seq<seq<char>>)
    requires |parts| >= 2 && forall r :: r in parts ==> r != []
    ensures forall r :: r in parts ==> |r| < Total(parts)
  {
    var front, last := parts[..|parts| - 1], parts[|parts| - 1];
    assert last in parts && parts[0] in parts && front[0] == parts[0];
    Longest(front);
    assert front[0] in front;
    forall r | r in parts ensures |r| < Total(parts) {
      if r in front { assert |r| <= Total(front); } else { assert r == last; }
    }
  }

  function Fill(n: nat, c: char): (r: seq<char>)
    ensures |r| == n
  {
    seq(n, _ => c)
  }

  /** After several reads the window depends on the old bytes. */
  lemma StaleShows(parts: seq<seq<char>>, room: nat)
    requires |parts| >= 2 && (forall r :: r in parts ==> r != []) && Total(parts) <= room
    ensures Landed(Fill(room, 'a'), parts) != Landed(Fill(room, 'b'), parts)
  {
    var at := Total(parts) - 1;
    AllPositive(parts);
    assert parts[0] in parts;
    LastByteStale(Fill(room, 'a'), parts, at);
    LastByteStale(Fill(room, 'b'), parts, at);
    hide Overlay, Total;
    assert Landed(Fill(room, 'a'), parts)[at] == 'a' && Landed(Fill(room, 'b'), parts)[at] == 'b';
  }

  /**
   * All that was received ends up in the window, whatever was in the free area before, exactly if there was
   * at most one read.
   */
  lemma ReadsExact(parts: seq<seq<char>>, room: nat)
    requires (forall r :: r in parts ==> r != []) && Total(parts) <= room
    ensures |parts| <= 1 <==> forall free: seq<char> :: |free| == room ==> Landed(free, parts) == Concat(parts)
  {
    hide Overlay, Total, Landed, Concat, Fill;
    if |parts| <= 1 {
      forall free: seq<char> | |free| == room ensures Landed(free, parts) == Concat(parts) { OneRead(free, parts); }
    } else {
      StaleShows(parts, room);
      assert |Fill(room, 'a')| == room && |Fill(room, 'b')| == room;
    }
  }

  /** Two reads of two bytes each: the second lands on the first, and two old bytes are taken for new ones. */
  lemma SecondReadOverwrites(free: seq<char>)
    requires |free| >= 4
    ensures Landed(free, ["ab", "cd"]) == "cd" + free[2..4]
  {
    assert [] + ["ab"] == ["ab"] && ["ab"] + ["cd"] == ["ab", "cd"];
    OneMore(free, [], "ab");
    OneMore(free, ["ab"], "cd");
    NoReads(free);
  }
}
