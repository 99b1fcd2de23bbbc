/** Printing numbers (`itoa`, `strrev` and the number formats of `printf` in src/lib.c). */
module Printing {
  import opened Layout

  const ZERO: byte := 0x30
  const MINUS: byte := 0x2D

  type Radix = r: int | 2 <= r <= 36 witness 10

  /** The lookup table "0123456789ABC...Z". */
  function Digit(i: nat): byte
    requires i < 36
  {
    if i < 10 then ZERO + i else 0x41 + (i - 10)
  }

  function DigitValue(c: byte): nat {
    if ZERO <= c < ZERO + 10 then c - ZERO else if 0x41 <= c <= 0x5A then c - 0x41 + 10 else 36
  }

  /** The number a string of digits stands for. */
  function Parse(s: seq<byte>, radix: Radix): nat {
    if s == [] then 0 else Parse(s[..|s| - 1], radix) * radix + DigitValue(s[|s| - 1])
  }

  lemma Division(value: nat, radix: Radix)
    ensures value == value / radix * radix + value % radix
    ensures if value < radix then value / radix == 0 && value % radix == value else 0 < value / radix < value
  {
    var q, m := value / radix, value % radix;
    assert value == q * radix + m;
    assert q > 0 ==> q * 2 <= q * radix;
    assert q > 0 ==> radix <= q * radix;
    assert q <= 0 ==> q * radix <= 0;
  }

  /** The digits of a number, highest first. */
  function Digits(value: nat, radix: Radix): (s: seq<byte>)
    ensures s != []
    decreases value
  {
    Division(value, radix);
    if value < radix then [Digit(value)] else Digits(value / radix, radix) + [Digit(value % radix)]
  }

  /** The digits in the order `itoa` finds them, lowest first. */
  function LowFirst(value: nat, radix: Radix): (s: seq<byte>)
    ensures s != [] && NUL !in s
    decreases value
  {
    Division(value, radix);
    if value < radix then [Digit(value)] else [Digit(value % radix)] + LowFirst(value / radix, radix)
  }

  lemma {:induction false} LowFirstReversed(value: nat, radix: Radix)
    ensures Reverse(LowFirst(value, radix)) == Digits(value, radix)
    decreases value
  {
    Division(value, radix);
    var s := LowFirst(value, radix);
    if value < radix {
      assert Reverse(s[1..]) == [];
    } else {
      assert s[1..] == LowFirst(value / radix, radix);
      LowFirstReversed(value / radix, radix);
    }
  }

  lemma DigitValues(i: nat)
    requires i < 36
    ensures DigitValue(Digit(i)) == i && (Digit(i) == ZERO <==> i == 0)
  {
  }

  /** The round trip: parsing the digits gives the number back, every character is a digit of
      the radix, and there is no leading zero. */
  lemma {:induction false} DigitsRoundTrip(value: nat, radix: Radix)
    ensures Parse(Digits(value, radix), radix) == value
    ensures forall c :: c in Digits(value, radix) ==> DigitValue(c) < radix
    ensures Digits(value, radix)[0] == ZERO ==> value == 0 && |Digits(value, radix)| == 1
    decreases value
  {
    var s := Digits(value, radix);
    Division(value, radix);
    DigitValues(value % radix);
    if value < radix {
      assert Parse(s[..0], radix) == 0;
    } else {
      var q := value / radix;
      DigitsRoundTrip(q, radix);
      assert s[..|s| - 1] == Digits(q, radix);
    }
  }

  function Pow(radix: Radix, n: nat): nat { if n == 0 then 1 else radix * Pow(radix, n - 1) }

  lemma {:induction false} DigitsLength(value: nat, radix: Radix, n: nat)
    requires value < radix * Pow(radix, n)
    ensures |Digits(value, radix)| <= n + 1
    decreases n
  {
    Division(value, radix);
    if value >= radix && n > 0 {
      QuotientBelow(value, radix, Pow(radix, n));
      DigitsLength(value / radix, radix, n - 1);
    }
  }

  lemma QuotientBelow(value: nat, radix: Radix, p: nat)
    requires value < radix * p
    ensures value / radix < p
  {
  }

  function Reverse(s: seq<byte>): (r: seq<byte>)
    ensures |r| == |s|
  {
    if s == [] then [] else Reverse(s[1..]) + [s[0]]
  }

  lemma {:induction false} ReverseAt(s: seq<byte>, i: nat)
    requires i < |s|
    ensures Reverse(s)[i] == s[|s| - 1 - i]
  {
    if i < |s| - 1 {
      ReverseAt(s[1..], i);
    }
  }

  lemma {:induction false} ReverseSnoc(s: seq<byte>, c: byte)
    ensures Reverse(s + [c]) == [c] + Reverse(s)
  {
    if s != [] {
      assert (s + [c])[1..] == s[1..] + [c];
      ReverseSnoc(s[1..], c);
    }
  }

  /** `buf` holds the C string `s` at `at`. */
  ghost predicate StringAt(buf: seq<byte>, at: nat, s: seq<byte>) {
    at + |s| < |buf| && buf[at..at + |s|] == s && buf[at + |s|] == NUL && NUL !in s
  }

  lemma StringBytes(buf: seq<byte>, at: nat, s: seq<byte>)
    requires StringAt(buf, at, s)
    ensures forall i :: at <= i < at + |s| ==> buf[i] == s[i - at] && buf[i] != NUL
  {
  }

  lemma StringFromBytes(buf: seq<byte>, at: nat, s: seq<byte>)
    requires at + |s| < |buf| && buf[at + |s|] == NUL
    requires forall i :: at <= i < at + |s| ==> buf[i] == s[i - at] && buf[i] != NUL
    ensures StringAt(buf, at, s)
  {
  }

  method Strlen(buf: array<byte>, at: nat, ghost s: seq<byte>) returns (len: nat)
    requires StringAt(buf[..], at, s)
    ensures len == |s|
  {
    StringBytes(buf[..], at, s);
    len := 0;
    while buf[at + len] != NUL
      invariant len <= |s|
      decreases |s| - len
    {
      len := len + 1;
    }
  }

  /** Reverses a string in place. */
  method Strrev(buf: array<byte>, at: nat, ghost s: seq<byte>)
    requires StringAt(buf[..], at, s)
    modifies buf
    ensures StringAt(buf[..], at, Reverse(s))
    ensures forall i :: 0 <= i < buf.Length && !(at <= i < at + |s|) ==> buf[i] == old(buf[i])
  {
    StringBytes(buf[..], at, s);
    var n := Strlen(buf, at, s);
    SwapEnds(buf, at, n);
    forall i | at <= i < at + n
      ensures buf[i] == Reverse(s)[i - at]
    {
      ReverseAt(s, i - at);
    }
    StringFromBytes(buf[..], at, Reverse(s));
  }

  /** The loop of `strrev`: swaps the ends until they meet. */
  method SwapEnds(buf: array<byte>, at: nat, n: nat)
    requires at + n <= buf.Length
    modifies buf
    ensures forall i :: 0 <= i < buf.Length ==>
              buf[i] == if at <= i < at + n then old(buf[at + n - 1 - (i - at)]) else old(buf[i])
  {
    var beg: int, end: int := 0, n - 1;
    while beg < end
      invariant 0 <= beg <= end + 2 && end == n - 1 - beg
      invariant forall i :: 0 <= i < buf.Length ==>
                  buf[i] == if at <= i < at + n && !(at + beg <= i <= at + end)
                            then old(buf[at + n - 1 - (i - at)]) else old(buf[i])
    {
      buf[at + end], buf[at + beg] := buf[at + beg], buf[at + end];
      beg, end := beg + 1, end - 1;
    }
  }

  /** Writes the digits of `value` and a terminator at `at`. */
  method Itoa(value: uint32, buf: array<byte>, at: nat, radix: Radix)
    requires at + |Digits(value, radix)| < buf.Length
    modifies buf
    ensures StringAt(buf[..], at, Digits(value, radix))
    ensures buf[..at] == old(buf[..at])
    ensures forall i :: at + |Digits(value, radix)| < i < buf.Length ==> buf[i] == old(buf[i])
  {
    LowFirstReversed(value, radix);
    ghost var s := LowFirst(value, radix);
    if value == 0 {
      buf[at], buf[at + 1] := ZERO, NUL;
      assert s == [ZERO] && buf[at..at + 1] == s && Reverse(s[1..]) == [];
      return;
    }
    EmitDigits(value, buf, at, radix);
    Strrev(buf, at, s);
  }

  /** The loop of `itoa`: one place value at a time, lowest first, then the terminator. */
  method EmitDigits(value: uint32, buf: array<byte>, at: nat, radix: Radix)
    requires value > 0 && at + |LowFirst(value, radix)| < buf.Length
    modifies buf
    ensures StringAt(buf[..], at, LowFirst(value, radix))
    ensures buf[..at] == old(buf[..at])
    ensures forall i :: at + |LowFirst(value, radix)| < i < buf.Length ==> buf[i] == old(buf[i])
  {
    ghost var s := LowFirst(value, radix);
    var newval, k: nat := value, 0;
    while newval > 0
      invariant 0 <= newval < 0x1_0000_0000 && k <= |s|
      invariant s[k..] == if newval > 0 then LowFirst(newval, radix) else []
      invariant forall i :: 0 <= i < buf.Length && !(at + k <= i <= at + |s|) ==>
                  buf[i] == if at <= i < at + k then s[i - at] else old(buf[i])
      decreases newval
    {
      NextDigit(newval, radix);
      assert s[k] == s[k..][0] && s[k + 1..] == s[k..][1..];
      buf[at + k] := Digit(newval % radix);
      k := k + 1;
      newval := newval / radix;
    }
    buf[at + k] := NUL;
    StringFromBytes(buf[..], at, s);
  }

  lemma NextDigit(value: nat, radix: Radix)
    requires value > 0
    ensures value / radix < value
    ensures LowFirst(value, radix)[0] == Digit(value % radix)
    ensures LowFirst(value, radix)[1..] == if value / radix > 0 then LowFirst(value / radix, radix) else []
  {
    Division(value, radix);
  }

  // ---- printf ----

  /** What `puts` prints: the bytes up to the terminator. */
  method Puts(buf: array<byte>, at: nat, ghost s: seq<byte>) returns (out: seq<byte>)
    requires StringAt(buf[..], at, s)
    ensures out == s
  {
    StringBytes(buf[..], at, s);
    out := [];
    while buf[at + |out|] != NUL
      invariant out <= s
      decreases |s| - |out|
    {
      out := out + [buf[at + |out|]];
    }
  }

  function Zeros(n: nat): seq<byte> { seq(n, _ => ZERO) }

  lemma {:induction false} ParseZeros(n: nat, s: seq<byte>, radix: Radix)
    ensures Parse(Zeros(n) + s, radix) == Parse(s, radix)
    decreases |s|, n
  {
    var z := Zeros(n) + s;
    if s != [] {
      assert z[..|z| - 1] == Zeros(n) + s[..|s| - 1];
      ParseZeros(n, s[..|s| - 1], radix);
    } else if n > 0 {
      assert z[..|z| - 1] == Zeros(n - 1) + s;
      ParseZeros(n - 1, s, radix);
    }
  }

  /** `%#x`: exactly eight hexadecimal digits of the value. */
  method PrintHex8(value: uint32) returns (out: seq<byte>)
    ensures |out| == 8 && Parse(out, 16) == value
    ensures forall c :: c in out ==> DigitValue(c) < 16
  {
    ghost var s := Digits(value, 16);
    HexLength(value);
    var convBuf := new byte[64];
    Itoa(value, convBuf, 8, 16);
    StringBytes(convBuf[..], 8, s);
    var startingIndex := Strlen(convBuf, 8, s);
    var i := startingIndex;
    while i < 8
      invariant |s| <= i <= 8
      invariant forall j :: 8 <= j < 8 + |s| ==> convBuf[j] == s[j - 8] != NUL
      invariant convBuf[8 + |s|] == NUL
      invariant forall j :: |s| <= j < i ==> convBuf[j] == ZERO
    {
      convBuf[i] := ZERO;
      i := i + 1;
    }
    ghost var padded := Zeros(8 - |s|) + s;
    StringFromBytes(convBuf[..], |s|, padded);
    out := Puts(convBuf, startingIndex, padded);
    PaddedRoundTrip(value);
  }

  lemma PaddedRoundTrip(value: uint32)
    requires |Digits(value, 16)| <= 8
    ensures
      var padded := Zeros(8 - |Digits(value, 16)|) + Digits(value, 16);
      Parse(padded, 16) == value && forall c :: c in padded ==> DigitValue(c) < 16
  {
    var s := Digits(value, 16);
    DigitsRoundTrip(value, 16);
    ParseZeros(8 - |s|, s, 16);
    forall c | c in Zeros(8 - |s|) + s
      ensures DigitValue(c) < 16
    {
      assert c in s || c == ZERO;
    }
  }

  lemma HexLength(value: uint32)
    ensures |Digits(value, 16)| <= 8
  {
    assert Pow(16, 1) == 16;
    assert Pow(16, 3) == 0x1000;
    assert Pow(16, 5) == 0x10_0000;
    assert Pow(16, 7) == 0x1000_0000;
    DigitsLength(value, 16, 7);
  }

  lemma DecimalLength(value: uint32)
    ensures |Digits(value, 10)| <= 10
  {
    assert Pow(10, 1) == 10;
    assert Pow(10, 3) == 1000;
    assert Pow(10, 5) == 10_0000;
    assert Pow(10, 7) == 1000_0000;
    assert Pow(10, 9) == 10_0000_0000;
    DigitsLength(value, 10, 9);
  }

  function ParseSigned(s: seq<byte>): int {
    if s != [] && s[0] == MINUS then 0 - Parse(s[1..], 10) else Parse(s, 10)
  }

  /** The signed decimal text of a word. */
  function SignedText(value: int32): seq<byte> {
    if value < 0 then [MINUS] + Digits(0 - value, 10) else Digits(value, 10)
  }

  lemma SignedRoundTrip(value: int32)
    ensures ParseSigned(SignedText(value)) == value
    ensures SignedText(value)[0] == MINUS <==> value < 0
  {
    var magnitude := if value < 0 then 0 - value else value;
    DigitsRoundTrip(magnitude, 10);
    if value < 0 {
      assert SignedText(value)[1..] == Digits(magnitude, 10);
    } else {
      assert Digits(magnitude, 10)[0] in Digits(magnitude, 10);
    }
  }

  /** `%d`: right for every signed word. The lowest one negates to itself in 32 bits, and its
      unsigned reading is its magnitude. */
  method PrintSigned(value: int32) returns (out: seq<byte>)
    ensures out == SignedText(value) && ParseSigned(out) == value
  {
    SignedRoundTrip(value);
    var convBuf := new byte[36];
    if value < 0 {
      var magnitude: uint32 := Wrap32(0 - value);
      assert magnitude == 0 - value;
      DecimalLength(magnitude);
      convBuf[0] := MINUS;
      Itoa(magnitude, convBuf, 1, 10);
      StringBytes(convBuf[..], 1, Digits(magnitude, 10));
      assert convBuf[..1][0] == MINUS;
      StringFromBytes(convBuf[..], 0, SignedText(value));
    } else {
      DecimalLength(value);
      Itoa(value, convBuf, 0, 10);
    }
    out := Puts(convBuf, 0, SignedText(value));
  }
}
