/**
 The signal-safe number printing of Lab7_proxylab/csapp.c: sio_reverse,
 sio_ltoa and sio_strlen, on 64-bit longs.
 */
module NumberPrinting {
  import opened Sequences

  const LONG_MIN := -0x8000_0000_0000_0000
  const LONG_MAX := 0x7fff_ffff_ffff_ffff

  predicate IsLong(v: int) {
    LONG_MIN <= v <= LONG_MAX
  }

  predicate IsBase(b: int) {
    2 <= b <= 36
  }

  /** -v in 64 bits: the least long is its own negation. */
  function Negated(v: int): (m: int)
    requires IsLong(v)
    ensures IsLong(m)
  {
    if v == LONG_MIN then v else -v
  }

  /** C's division, which rounds toward zero. */
  function Quotient(v: int, b: int): int
    requires b > 0
  {
    if v >= 0 then v / b else -((-v) / b)
  }

  function Remainder(v: int, b: int): (r: int)
    requires b > 0
    ensures -b < r < b && (v >= 0 ==> r >= 0) && (v <= 0 ==> r <= 0) && v == Quotient(v, b) * b + r
  {
    if v >= 0 then v % b else -((-v) % b)
  }

  /** What a character stands for; -1 when it is no digit in any base up to 36. */
  function Value(d: char): (c: int)
    ensures -1 <= c < 36
  {
    if '0' <= d <= '9' then d as int - 48
    else if 'a' <= d <= 'z' then d as int - 97 + 10
    else -1
  }

  function Digit(c: int): (d: char)
    requires -36 < c < 36
    ensures d != '\0' && (c >= 0 ==> d != '-' && Value(d) == c) && (c < 0 ==> Value(d) < 0 && d as int == '0' as int + c)
    ensures c >= 0 ==> d == "0123456789abcdefghijklmnopqrstuvwxyz"[c]
  {
    (if c < 10 then c + 48 else c - 10 + 97) as char
  }

  /** The digits that the do-while loop puts down, last digit first. */
  function LowDigits(v: int, b: int): (s: string)
    requires IsBase(b)
    ensures s != [] && '\0' !in s
    decreases if v > 0 then v else 0
  {
    var q := Quotient(v, b);
    Smaller(v, b);
    [Digit(Remainder(v, b))] + if q > 0 then LowDigits(q, b) else []
  }

  lemma MulMonotone(a: nat, b: int, c: int)
    requires b <= c
    ensures a * b <= a * c
  {
  }

  lemma Halves(n: nat, b: int)
    requires IsBase(b)
    ensures 0 <= 2 * (n / b) <= n
  {
    var q := n / b;
    MulMonotone(q, 2, b);
  }

  lemma Smaller(v: int, b: int)
    requires IsBase(b)
    ensures v >= 0 ==> 0 <= 2 * Quotient(v, b) <= v
    ensures v < 0 ==> Quotient(v, b) <= 0
  {
    Halves(if v >= 0 then v else -v, b);
  }

  /** What sio_ltoa leaves in the buffer, without the terminator. */
  function Text(v: int, b: int): string
    requires IsLong(v) && IsBase(b)
  {
    Reversed(if v < 0 then LowDigits(Negated(v), b) + "-" else LowDigits(v, b))
  }

  // ------------------------------------------------------------ reading back

  datatype Number = Number(n: int) | NoNumber

  /** Digits in base b, first digit most significant. */
  function ParseDigits(s: string, b: int): Number {
    if s == [] then Number(0)
    else
      var rest := ParseDigits(s[..|s| - 1], b);
      var c := Value(s[|s| - 1]);
      if rest.Number? && 0 <= c < b then Number(rest.n * b + c) else NoNumber
  }

  /** An optional minus sign and at least one digit. */
  function Parse(s: string, b: int): Number {
    if s == [] then NoNumber
    else if s[0] == '-' then
      if |s| == 1 then NoNumber
      else match ParseDigits(s[1..], b)
        case Number(n) => Number(-n)
        case NoNumber => NoNumber
    else ParseDigits(s, b)
  }

  lemma ReversedCons(c: char, s: string)
    ensures Reversed([c] + s) == Reversed(s) + [c]
    ensures Reversed(s + [c]) == [c] + Reversed(s)
  {
  }

  lemma ParseLast(s: string, d: char, b: int, n: int)
    requires ParseDigits(s, b) == Number(n) && 0 <= Value(d) < b
    ensures ParseDigits(s + [d], b) == Number(n * b + Value(d))
  {
    var t := s + [d];
    assert t[..|t| - 1] == s && t[|t| - 1] == d;
  }

  lemma ParseNothing(b: int)
    ensures ParseDigits("", b) == Number(0)
  {
  }

  lemma LowLast(v: int, b: int)
    requires v >= 0 && IsBase(b)
    ensures var q, r := Quotient(v, b), Remainder(v, b);
      Reversed(LowDigits(v, b)) == (if q > 0 then Reversed(LowDigits(q, b)) else "") + [Digit(r)]
  {
    hide Quotient, Remainder, Digit;
    var q, r := Quotient(v, b), Remainder(v, b);
    ReversedCons(Digit(r), if q > 0 then LowDigits(q, b) else "");
  }

  lemma {:induction false} DigitsBack(v: int, b: int)
    requires v >= 0 && IsBase(b)
    ensures ParseDigits(Reversed(LowDigits(v, b)), b) == Number(v)
    ensures Reversed(LowDigits(v, b))[0] != '-'
    decreases v
  {
    hide Quotient, Remainder, Digit, Value, ParseDigits, LowDigits;
    var q, r := Quotient(v, b), Remainder(v, b);
    Smaller(v, b);
    NotNegative(v, b);
    LowLast(v, b);
    if q > 0 {
      DigitsBack(q, b);
      ParseLast(Reversed(LowDigits(q, b)), Digit(r), b, q);
    } else {
      ParseNothing(b);
      ParseLast("", Digit(r), b, 0);
    }
  }

  lemma NotNegative(v: int, b: int)
    requires v >= 0 && b > 0
    ensures Quotient(v, b) >= 0 && Remainder(v, b) < b
  {
  }

  /** Printing and reading back gives the number for every long but the least. */
  lemma RoundTrip(v: int, b: int)
    requires IsLong(v) && IsBase(b)
    ensures Parse(Text(v, b), b) == Number(v) <==> v != LONG_MIN
  {
    if v == LONG_MIN {
      LeastLong(b);
    } else if v >= 0 {
      DigitsBack(v, b);
    } else {
      DigitsBack(-v, b);
      ReversedCons('-', LowDigits(-v, b));
      var t := Text(v, b);
      assert t[1..] == Reversed(LowDigits(-v, b));
    }
  }

  /** The least long prints as a sign and one character. */
  lemma LeastLong(b: int)
    requires IsBase(b)
    ensures Text(LONG_MIN, b) == ['-', Digit(Remainder(LONG_MIN, b))]
    ensures Parse(Text(LONG_MIN, b), b) == if Remainder(LONG_MIN, b) == 0 then Number(0) else NoNumber
  {
    Smaller(LONG_MIN, b);
    hide Remainder, Quotient;
    var q, r := Quotient(LONG_MIN, b), Remainder(LONG_MIN, b);
    assert LowDigits(LONG_MIN, b) == [Digit(r)];
    ReversedCons('-', [Digit(r)]);
    assert Reversed([Digit(r)]) == [Digit(r)];
    var t := Text(LONG_MIN, b);
    assert t == ['-'] + [Digit(r)];
    var d := t[1..];
    assert d == [Digit(r)] && d[..0] == [];
    assert ParseDigits(d[..0], b) == Number(0);
  }

  /** In base ten that is "-(". */
  lemma LeastLongInTen()
    ensures Text(LONG_MIN, 10) == "-(" && Parse(Text(LONG_MIN, 10), 10) == NoNumber
  {
    LeastLong(10);
  }

  // ------------------------------------------------------------ the numeral

  /** No zero in front of other digits. */
  predicate Plain(d: string) {
    d != "" && (d[0] == '0' ==> |d| == 1)
  }

  /** Digits of base b, none of them a leading zero, behind a minus sign or none; zero has no sign. */
  predicate IsNumeral(s: string, b: int) {
    if s != "" && s[0] == '-' then Plain(s[1..]) && s[1] != '0' && ParseDigits(s[1..], b).Number?
    else Plain(s) && ParseDigits(s, b).Number?
  }

  lemma {:induction false} PlainPositive(s: string, b: int)
    requires IsBase(b) && Plain(s) && ParseDigits(s, b).Number?
    ensures ParseDigits(s, b).n >= 0 && (s[0] != '0' ==> ParseDigits(s, b).n > 0)
  {
    var g, d := s[..|s| - 1], s[|s| - 1];
    if g == "" {
      ParseNothing(b);
      DigitOf(d);
    } else {
      PlainPositive(g, b);
      var n := ParseDigits(g, b).n;
      MulMonotone(b, 1, n);
    }
  }

  /** A digit is the character of its value. */
  lemma DigitOf(d: char)
    requires Value(d) >= 0
    ensures Digit(Value(d)) == d && (Value(d) == 0 <==> d == '0')
  {
  }

  /** A numeral without a sign is what the loop puts down for its number. */
  lemma {:induction false} OnlyDigits(s: string, b: int)
    requires IsBase(b) && Plain(s) && ParseDigits(s, b).Number?
    ensures ParseDigits(s, b).n >= 0 && s == Reversed(LowDigits(ParseDigits(s, b).n, b))
  {
    hide Digit, LowDigits;
    PlainPositive(s, b);
    var g, d, n := s[..|s| - 1], s[|s| - 1], ParseDigits(s, b).n;
    var m, c := ParseDigits(g, b).n, Value(d);
    DigitOf(d);
    LowLast(n, b);
    assert s == g + [d];
    if g == "" {
      ParseNothing(b);
      QuotientIs(n, b, 0, c);
    } else {
      PlainPositive(g, b);
      QuotientIs(n, b, m, c);
      OnlyDigits(g, b);
    }
  }

  lemma QuotientIs(n: int, b: int, m: int, c: int)
    requires IsBase(b) && m >= 0 && 0 <= c < b && n == m * b + c
    ensures Quotient(n, b) == m && Remainder(n, b) == c
  {
    var e := n / b - m;
    assert n == b * (n / b) + n % b;
    assert b * e == c - n % b;
    if e > 0 {
      MulMonotone(b, 1, e);
    } else if e < 0 {
      MulMonotone(b, e, -1);
    }
  }

  lemma {:induction false} DigitsPlain(v: int, b: int)
    requires v >= 0 && IsBase(b)
    ensures Plain(Reversed(LowDigits(v, b))) && (Reversed(LowDigits(v, b))[0] == '0' ==> v == 0)
    decreases v
  {
    hide Quotient, Remainder, LowDigits;
    var q, r := Quotient(v, b), Remainder(v, b);
    Smaller(v, b);
    NotNegative(v, b);
    LowLast(v, b);
    if q > 0 {
      DigitsPlain(q, b);
    }
  }

  /** The text of every long but the least is the one numeral for it: signed
      exactly if it is negative, without leading zeros. */
  lemma TextExactly(v: int, b: int, s: string)
    requires IsLong(v) && IsBase(b) && v != LONG_MIN
    ensures IsNumeral(s, b) && Parse(s, b) == Number(v) <==> s == Text(v, b)
  {
    TextNumeral(v, b);
    RoundTrip(v, b);
    if IsNumeral(s, b) && Parse(s, b) == Number(v) {
      OnlyNumeral(s, v, b);
    }
  }

  lemma TextNumeral(v: int, b: int)
    requires IsLong(v) && IsBase(b) && v != LONG_MIN
    ensures IsNumeral(Text(v, b), b) && (Text(v, b)[0] == '-' <==> v < 0)
  {
    hide LowDigits, ParseDigits;
    var m := if v < 0 then -v else v;
    DigitsPlain(m, b);
    DigitsBack(m, b);
    if v < 0 {
      ReversedCons('-', LowDigits(m, b));
      assert Text(v, b)[1..] == Reversed(LowDigits(m, b));
    }
  }

  lemma OnlyNumeral(s: string, v: int, b: int)
    requires IsLong(v) && IsBase(b) && v != LONG_MIN && IsNumeral(s, b) && Parse(s, b) == Number(v)
    ensures s == Text(v, b)
  {
    hide LowDigits, ParseDigits;
    if s[0] == '-' {
      OnlyDigits(s[1..], b);
      PlainPositive(s[1..], b);
      ReversedCons('-', LowDigits(-v, b));
      assert s == ['-'] + s[1..];
    } else {
      OnlyDigits(s, b);
    }
  }

  // -------------------------------------------------------------- the length

  function Pow(b: nat, k: nat): nat {
    if k == 0 then 1 else b * Pow(b, k - 1)
  }

  lemma PowStep(b: nat, k: nat)
    ensures Pow(b, 0) == 1 && Pow(b, k + 1) == b * Pow(b, k)
  {
  }

  lemma Scale(b: nat, x: nat, y: nat)
    requires b >= 2 && x >= y
    ensures b * x >= 2 * y
  {
    MulMonotone(x, 2, b);
  }

  lemma {:induction false} PowGrows(b: nat, k: nat)
    requires b >= 2
    ensures Pow(b, k) >= Pow(2, k)
  {
    hide Pow;
    PowStep(b, 0);
    PowStep(2, 0);
    if k > 0 {
      PowGrows(b, k - 1);
      PowStep(b, k - 1);
      PowStep(2, k - 1);
      Scale(b, Pow(b, k - 1), Pow(2, k - 1));
    }
  }

  lemma {:induction false} Length(v: int, b: int, k: nat)
    requires IsBase(b) && k > 0 && v < Pow(b, k)
    ensures |LowDigits(v, b)| <= k
    decreases k
  {
    var q := Quotient(v, b);
    if q > 0 {
      Smaller(v, b);
      if k == 1 {
        assert Pow(b, 1) == b * Pow(b, 0) == b;
        TooLarge(v, b, 1);
      } else {
        TooLarge(v, b, Pow(b, k - 1));
        Length(q, b, k - 1);
      }
    }
  }

  lemma TooLarge(v: int, b: int, p: nat)
    requires v >= 0 && b > 0 && v < b * p
    ensures Quotient(v, b) < p
  {
    var q := v / b;
    if q >= p {
      MulMonotone(b, p, q);
    }
  }

  lemma MulAssociative(b: nat, x: nat, y: nat)
    ensures b * (x * y) == (b * x) * y
  {
  }

  lemma {:induction false} PowSum(b: nat, j: nat, k: nat)
    ensures Pow(b, j + k) == Pow(b, j) * Pow(b, k)
  {
    hide Pow;
    PowStep(b, 0);
    if j > 0 {
      PowSum(b, j - 1, k);
      PowStep(b, j - 1);
      PowStep(b, j - 1 + k);
      MulAssociative(b, Pow(b, j - 1), Pow(b, k));
    }
  }

  lemma PowerOfTwo()
    ensures Pow(2, 63) == 0x8000_0000_0000_0000
  {
    assert Pow(2, 9) == 512;
    hide Pow;
    PowSum(2, 9, 9);
    PowSum(2, 18, 18);
    PowSum(2, 36, 18);
    PowSum(2, 54, 9);
  }

  lemma PowerOfTen()
    ensures Pow(10, 19) == 10_000_000_000_000_000_000
  {
    assert Pow(10, 9) == 1_000_000_000 && Pow(10, 1) == 10;
    hide Pow;
    PowSum(10, 9, 9);
    PowSum(10, 18, 1);
  }

  /** Every long fits in 64 characters, and in 20 in base ten. */
  lemma TextFits(v: int, b: int)
    requires IsLong(v) && IsBase(b)
    ensures |Text(v, b)| <= 64 && (b == 10 ==> |Text(v, b)| <= 20)
  {
    var m := if v < 0 then Negated(v) else v;
    hide Pow, LowDigits;
    PowerOfTwo();
    PowerOfTen();
    PowGrows(b, 63);
    Length(m, b, 63);
    if b == 10 {
      Length(m, 10, 19);
    }
  }

  lemma LowStep(done: string, u: int, b: int)
    requires IsBase(b)
    ensures var q := Quotient(u, b);
      done + LowDigits(u, b) == (done + [Digit(Remainder(u, b))]) + if q > 0 then LowDigits(q, b) else []
  {
  }

  // ----------------------------------------------------------- the C functions

  /** The array holds t as a terminated string. */
  ghost predicate Holds(s: array<char>, t: string)
    reads s
  {
    |t| < s.Length && s[..|t|] == t && s[|t|] == '\0' && '\0' !in t
  }

  /** sio_strlen */
  method SioStrlen(s: array<char>, ghost t: string) returns (i: nat)
    requires Holds(s, t)
    ensures i == |t|
  {
    i := 0;
    while s[i] != '\0'
      invariant i <= |t|
      decreases |t| - i
    {
      assert s[i] == s[..|t|][i] || i == |t|;
      i := i + 1;
    }
  }

  /** sio_reverse */
  method SioReverse(s: array<char>, ghost t: string)
    requires Holds(s, t)
    modifies s
    ensures Holds(s, Reversed(t))
    ensures forall k :: |t| <= k < s.Length ==> s[k] == old(s[k])
  {
    var n := SioStrlen(s, t);
    var i, j := 0, n - 1;
    assert forall k :: 0 <= k < n ==> s[k] == t[k];
    while i < j
      invariant 0 <= i && j == n - 1 - i && i <= j + 2
      invariant forall k :: 0 <= k < i ==> s[k] == t[n - 1 - k] && s[n - 1 - k] == t[k]
      invariant forall k :: i <= k <= j ==> s[k] == t[k]
      invariant forall k :: n <= k < s.Length ==> s[k] == old(s[k])
    {
      var c := s[i];
      s[i] := s[j];
      s[j] := c;
      i, j := i + 1, j - 1;
    }
    assert forall k :: 0 <= k < n ==> s[k] == Reversed(t)[k];
    assert s[..n] == Reversed(t);
  }

  /** sio_ltoa into a buffer with room for the text and its terminator. */
  method SioLtoa(v: int, s: array<char>, b: int)
    requires IsLong(v) && IsBase(b) && |Text(v, b)| < s.Length
    modifies s
    ensures Holds(s, Text(v, b))
    ensures forall k :: |Text(v, b)| < k < s.Length ==> s[k] == old(s[k])
  {
    hide LowDigits;
    var i, neg, u := 0, v < 0, v;
    if neg {
      u := Negated(v);
    }
    ghost var low := LowDigits(u, b);
    i := PutDigits(u, s, b);
    ghost var t := low;
    if neg {
      s[i] := '-';
      i := i + 1;
      t := low + "-";
      assert s[..i] == t;
    }
    s[i] := '\0';
    SioReverse(s, t);
  }

  /** The do-while loop of sio_ltoa. */
  method PutDigits(v: int, s: array<char>, b: int) returns (i: nat)
    requires IsBase(b) && |LowDigits(v, b)| < s.Length
    modifies s
    ensures i == |LowDigits(v, b)| && s[..i] == LowDigits(v, b)
    ensures forall k :: i <= k < s.Length ==> s[k] == old(s[k])
  {
    hide LowDigits, Quotient, Remainder, Digit;
    var u, more := v, true;
    i := 0;
    while more
      invariant 0 <= i < s.Length
      invariant LowDigits(v, b) == s[..i] + if more then LowDigits(u, b) else []
      invariant forall k :: i <= k < s.Length ==> s[k] == old(s[k])
      decreases more, if u > 0 then u else 0
    {
      ghost var done := s[..i];
      LowStep(done, u, b);
      Smaller(u, b);
      s[i] := Digit(Remainder(u, b));
      i := i + 1;
      assert s[..i] == done + [Digit(Remainder(u, b))];
      u := Quotient(u, b);
      more := u > 0;
    }
  }

  /** sio_putl; `out` is what write() is given. */
  method SioPutl(v: int) returns (out: string)
    requires IsLong(v)
    ensures out == Text(v, 10)
    ensures Parse(out, 10) == Number(v) && IsNumeral(out, 10) <==> v != LONG_MIN
    ensures v != LONG_MIN ==> (out[0] == '-' <==> v < 0)
  {
    var s := new char[128];
    TextFits(v, 10);
    SioLtoa(v, s, 10);
    var n := SioStrlen(s, Text(v, 10));
    out := s[..n];
    RoundTrip(v, 10);
    if v != LONG_MIN {
      TextNumeral(v, 10);
    }
  }
}
