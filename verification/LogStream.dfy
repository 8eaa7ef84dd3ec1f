/** Integers as decimal text, written in place into a log buffer. */
module LogStream {
  import opened Fixed
  import opened Truncation

  /** The digits around zero: a negative remainder finds the same digit as its absolute value. */
  const DIGITS: seq<char> := "9876543210123456789"
  /** A buffer with less room than this takes no number. */
  const MAX_NUMERIC_SIZE: nat := 32

  // ----- decimal text -----

  function Digit(d: nat): char
    requires d < 10
  {
    "0123456789"[d]
  }

  function Natural(n: nat): (s: seq<char>)
    ensures s != []
  {
    if n < 10 then [Digit(n)] else Natural(n / 10) + [Digit(n % 10)]
  }

  function Decimal(t: int): seq<char> {
    if t < 0 then ['-'] + Natural(-t) else Natural(t)
  }

  predicate IsDigit(c: char) {
    '0' <= c <= '9'
  }

  predicate AllDigits(s: seq<char>) {
    forall k :: 0 <= k < |s| ==> IsDigit(s[k])
  }

  /** The number that digits stand for. */
  function Value(s: seq<char>): nat
    requires AllDigits(s)
  {
    if s == [] then 0 else 10 * Value(s[..|s| - 1]) + (s[|s| - 1] as int - '0' as int)
  }

  /** Digits without a leading zero. */
  predicate CanonicalNatural(s: seq<char>) {
    s != [] && AllDigits(s) && (|s| > 1 ==> s[0] != '0')
  }

  /** The same after a minus sign, but never "-0". */
  predicate Canonical(s: seq<char>) {
    if s != [] && s[0] == '-' then CanonicalNatural(s[1..]) && s[1] != '0' else CanonicalNatural(s)
  }

  function Parsed(s: seq<char>): int
    requires Canonical(s)
  {
    if s[0] == '-' then 0 - Value(s[1..]) else Value(s)
  }

  lemma {:induction false} NaturalReads(n: nat)
    ensures CanonicalNatural(Natural(n)) && Value(Natural(n)) == n
    ensures Natural(n)[0] == '0' <==> n == 0
  {
    if n < 10 {
      assert Natural(n)[..0] == [];
    } else {
      NaturalReads(n / 10);
      var front := Natural(n / 10);
      assert Natural(n)[..|front|] == front && Natural(n)[0] == front[0];
    }
  }

  lemma DigitOf(c: char)
    requires IsDigit(c)
    ensures Digit(c as int - '0' as int) == c
  {
  }

  /** Taking the last digit off. */
  lemma FrontCanonical(s: seq<char>)
    requires CanonicalNatural(s)
    ensures AllDigits(s) && IsDigit(s[|s| - 1]) && s == s[..|s| - 1] + [s[|s| - 1]]
    ensures |s| > 1 ==> CanonicalNatural(s[..|s| - 1]) && s[..|s| - 1][0] == s[0] != '0'
  {
  }

  lemma {:induction false} DigitsSpell(s: seq<char>)
    requires CanonicalNatural(s)
    ensures Natural(Value(s)) == s
    ensures s[0] != '0' ==> Value(s) > 0
    decreases |s|
  {
    hide CanonicalNatural, Digit;
    FrontCanonical(s);
    var front, last := s[..|s| - 1], s[|s| - 1];
    DigitOf(last);
    if |s| > 1 {
      DigitsSpell(front);
      assert Value(s) / 10 == Value(front) && Value(s) % 10 == last as int - '0' as int;
    } else {
      assert front == [] && Value([]) == 0 && s == [last];
    }
  }

  /** The text of an integer is canonical and reads back as the integer. */
  lemma DecimalReads(t: int)
    ensures Canonical(Decimal(t)) && Parsed(Decimal(t)) == t
  {
    NaturalReads(if t < 0 then -t else t);
    if t < 0 {
      assert Decimal(t)[1..] == Natural(-t);
      assert Decimal(t)[1] == Natural(-t)[0];
    }
  }

  /** Every canonical text is the text of the integer it reads as. */
  lemma CanonicalIsDecimal(s: seq<char>)
    requires Canonical(s)
    ensures Decimal(Parsed(s)) == s
  {
    if s[0] == '-' {
      DigitsSpell(s[1..]);
      assert s == ['-'] + s[1..];
    } else {
      DigitsSpell(s);
    }
  }

  lemma DecimalInjective(a: int, b: int)
    ensures Decimal(a) == Decimal(b) <==> a == b
  {
    DecimalReads(a);
    DecimalReads(b);
  }

  function Power10(k: nat): nat {
    if k == 0 then 1 else 10 * Power10(k - 1)
  }

  /** Exactly how many digits a number takes. */
  lemma {:induction false} NaturalLength(n: nat, k: nat)
    requires k > 0
    ensures |Natural(n)| <= k <==> n < Power10(k)
    decreases k
  {
    if k == 1 {
      assert Power10(1) == 10 * Power10(0);
      if n >= 10 { assert |Natural(n)| == |Natural(n / 10)| + 1; }
    } else if n >= 10 {
      NaturalLength(n / 10, k - 1);
      assert n / 10 < Power10(k - 1) <==> n < 10 * Power10(k - 1);
    } else {
      Power10Positive(k - 1);
    }
  }

  lemma {:induction false} Power10Positive(k: nat)
    ensures Power10(k) > 0
  {
    if k > 0 { Power10Positive(k - 1); }
  }

  /** The values of all supported integer types, signed and unsigned up to 64 bits. */
  predicate IsInteger(t: int) {
    -0x8000_0000_0000_0000 <= t <= 0xFFFF_FFFF_FFFF_FFFF
  }

  lemma Power10Values()
    ensures Power10(19) == 10_000_000_000_000_000_000 && Power10(20) == 100_000_000_000_000_000_000
  {
    assert Power10(4) == 10_000;
    assert Power10(8) == 100_000_000;
    assert Power10(12) == 1_000_000_000_000;
    assert Power10(16) == 10_000_000_000_000_000;
  }

  /** With its terminator a number takes at most 21 characters. */
  lemma DecimalFits(t: int)
    requires IsInteger(t)
    ensures |Decimal(t)| + 1 <= 21 < MAX_NUMERIC_SIZE
  {
    Power10Values();
    if t < 0 { NaturalLength(-t, 19); } else { NaturalLength(t, 20); }
  }

  /** And that many it takes at both ends of the range. */
  lemma DecimalWidest()
    ensures |Decimal(-0x8000_0000_0000_0000)| + 1 == |Decimal(0xFFFF_FFFF_FFFF_FFFF)| + 1 == 21
  {
    Power10Values();
    assert Power10(19) == 10 * Power10(18);
    NaturalLength(0x8000_0000_0000_0000, 19);
    NaturalLength(0x8000_0000_0000_0000, 18);
    NaturalLength(0xFFFF_FFFF_FFFF_FFFF, 20);
    NaturalLength(0xFFFF_FFFF_FFFF_FFFF, 19);
  }

  // ----- writing it -----

  function Abs(t: int): nat {
    if t < 0 then -t else t
  }

  function Reversed(s: seq<char>): (r: seq<char>)
    ensures |r| == |s| && forall k :: 0 <= k < |s| ==> r[k] == s[|s| - 1 - k]
  {
    seq(|s|, k requires 0 <= k < |s| => s[|s| - 1 - k])
  }

  /** The mirrored table gives the last digit of a number of either sign, and truncation the digits before it. */
  lemma MirroredDigit(i: int)
    ensures var pos := Rem(i, 10); -9 <= pos <= 9 && DIGITS[9 + pos] == Digit(Abs(i) % 10)
    ensures Abs(Quot(i, 10)) == Abs(i) / 10
  {
    var pos := Rem(i, 10);
    assert Abs(pos) == Abs(i) % 10;
  }

  /** Turns a stretch of the array around in place. */
  method ReverseRange(buf: array<char>, lo: nat, hi: nat)
    requires lo <= hi <= buf.Length
    modifies buf
    ensures buf[lo..hi] == Reversed(old(buf[lo..hi]))
    ensures forall k :: (0 <= k < lo || hi <= k < buf.Length) ==> buf[k] == old(buf[k])
  {
    var i, j := lo, hi;
    while i + 1 < j
      invariant lo <= i <= j + 1 <= hi + 1 && i - lo == hi - j
      invariant forall k :: lo <= k < i ==> buf[k] == old(buf[lo + hi - 1 - k])
      invariant forall k :: j <= k < hi ==> buf[k] == old(buf[lo + hi - 1 - k])
      invariant forall k :: (0 <= k < lo || i <= k < j || hi <= k < buf.Length) ==> buf[k] == old(buf[k])
    {
      j := j - 1;
      buf[i], buf[j] := buf[j], buf[i];
      i := i + 1;
    }
  }

  lemma ReversedMore(s: seq<char>, c: char)
    ensures Reversed(s + [c]) == [c] + Reversed(s)
  {
  }

  /** One round of the loop: the last digit, and what is left. */
  lemma LastDigit(i: int)
    ensures -9 <= Rem(i, 10) <= 9
    ensures Natural(Abs(i)) == (if Quot(i, 10) != 0 then Natural(Abs(Quot(i, 10))) else []) + [DIGITS[9 + Rem(i, 10)]]
    ensures Abs(Quot(i, 10)) == Abs(i) / 10
  {
    MirroredDigit(i);
  }

  /** The digits of a number of either sign, last one first. */
  method WriteDigits(buf: array<char>, at: nat, t: int) returns (p: nat)
    requires at + |Natural(Abs(t))| <= buf.Length
    modifies buf
    ensures p == at + |Natural(Abs(t))| && Reversed(buf[at..p]) == Natural(Abs(t))
    ensures forall k :: (0 <= k < at || p <= k < buf.Length) ==> buf[k] == old(buf[k])
  {
    hide Natural, Reversed, Rem, Quot, Abs;
    var i, more := t, true;
    p := at;
    Nothing();
    assert buf[at..p] == [];
    while more
      invariant at <= p <= buf.Length
      invariant Natural(Abs(t)) == (if more then Natural(Abs(i)) else []) + Reversed(buf[at..p])
      invariant forall k :: (0 <= k < at || p <= k < buf.Length) ==> buf[k] == old(buf[k])
      decreases more, Abs(i)
    {
      Round(i, Natural(Abs(t)), Reversed(buf[at..p]));
      ghost var done := buf[at..p];
      var pos := Rem(i, 10);
      i := Quot(i, 10);
      ReversedMore(done, DIGITS[9 + pos]);
      buf[p] := DIGITS[9 + pos];
      p := p + 1;
      more := i != 0;
      assert buf[at..p] == done + [DIGITS[9 + pos]];
    }
  }

  lemma Round(i: int, whole: seq<char>, tail: seq<char>)
    requires whole == Natural(Abs(i)) + tail
    ensures -9 <= Rem(i, 10) <= 9 && |tail| < |whole|
    ensures whole == (if Quot(i, 10) != 0 then Natural(Abs(Quot(i, 10))) else []) + ([DIGITS[9 + Rem(i, 10)]] + tail)
    ensures Quot(i, 10) != 0 ==> Abs(Quot(i, 10)) < Abs(i)
  {
    LastDigit(i);
    Shrinks(i);
    hide Natural, Rem, Quot, Abs;
  }

  lemma Shrinks(i: int)
    ensures Quot(i, 10) != 0 ==> Abs(Quot(i, 10)) < Abs(i)
  {
  }

  lemma Nothing()
    ensures Reversed([]) == []
  {
  }

  /** Last digit first, then the sign and the terminator, then turned around. */
  method Convert(buf: array<char>, at: nat, t: int) returns (len: nat)
    requires at + |Decimal(t)| < buf.Length
    modifies buf
    ensures len == |Decimal(t)| && buf[at..at + len] == Decimal(t) && buf[at + len] == '\0'
    ensures forall k :: (0 <= k < at || at + len < k < buf.Length) ==> buf[k] == old(buf[k])
  {
    hide Natural, Reversed;
    var p := WriteDigits(buf, at, t);
    if t < 0 {
      ghost var done := buf[at..p];
      buf[p] := '-';
      p := p + 1;
      assert buf[at..p] == done + ['-'];
      ReversedMore(done, '-');
    }
    ghost var text := buf[at..p];
    buf[p] := '\0';
    assert buf[at..p] == text;
    ReverseRange(buf, at, p);
    len := p - at;
  }

  class LogStream {
    const buffer: FixedBuffer

    constructor (size: nat)
      ensures buffer.Valid() && buffer.Contents() == [] && buffer.data.Length == size
      ensures fresh(buffer) && fresh(buffer.data)
    {
      buffer := new FixedBuffer(size);
    }

    /** A number is written as a whole or, if the buffer is nearly full, not at all. */
    method FormatInteger(t: int)
      requires buffer.Valid() && IsInteger(t)
      modifies buffer, buffer.data
      ensures buffer.Valid()
      ensures buffer.Contents() == old(buffer.Contents()) +
        if old(buffer.GetRemainLen()) >= 32 then Decimal(t) else []
    {
      if buffer.GetRemainLen() >= MAX_NUMERIC_SIZE {
        hide Decimal;
        DecimalFits(t);
        ghost var before := buffer.Contents();
        var len := Convert(buffer.data, buffer.cur, t);
        assert buffer.Contents() == before;
        ghost var text := buffer.data[buffer.cur..buffer.cur + len];
        buffer.AddCurPos(len);
        assert buffer.Contents() == before + text;
      }
    }
  }
}
