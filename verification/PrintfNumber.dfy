/** Numbers as the printf engine of common/stdlib/subr_prf.c writes them: digit generation, the
    layout of a numeric conversion, and reading such a text back. */
module PrintfNumber {
  import opened MachineWords

  const DIGITS := "0123456789abcdefghijklmnopqrstuvwxyz"

  type Base = b: nat | 2 <= b <= 36 witness 10

  const TWO63: nat := 0x8000_0000_0000_0000

  function Upper(c: char): char {
    if 'a' <= c <= 'z' then c - 'a' + 'A' else c
  }

  function Digit(d: nat, upper: bool): char
    requires d < 36
  {
    if upper then Upper(DIGITS[d]) else DIGITS[d]
  }

  /** What a character is worth as a digit; 36 for all that are none. */
  function DigitValue(c: char): nat {
    if '0' <= c <= '9' then (c - '0') as nat
    else if 'a' <= c <= 'z' then (c - 'a') as nat + 10
    else if 'A' <= c <= 'Z' then (c - 'A') as nat + 10
    else 36
  }

  lemma DigitChar(d: nat)
    requires d < 36
    ensures DIGITS[d] == if d < 10 then '0' + d as char else 'a' + (d - 10) as char
  {
  }

  lemma DigitRoundTrip(d: nat, upper: bool)
    requires d < 36
    ensures DigitValue(Digit(d, upper)) == d
  {
    DigitChar(d);
    var c := DIGITS[d];
    assert DigitValue(c) == d;
    assert DigitValue(Upper(c)) == d;
  }

  // ---------- digits and values ----------

  /** The digits of a number, most significant first; zero has one. */
  function Digits(num: nat, base: Base, upper: bool): (s: string)
    ensures |s| > 0
  {
    if num < base then [Digit(num, upper)] else Digits(num / base, base, upper) + [Digit(num % base, upper)]
  }

  predicate AllDigits(s: string, base: Base) {
    forall i :: 0 <= i < |s| ==> DigitValue(s[i]) < base
  }

  function Value(s: string, base: Base): nat {
    if s == [] then 0 else Value(s[..|s| - 1], base) * base + DigitValue(s[|s| - 1])
  }

  lemma {:induction false} DigitsValue(num: nat, base: Base, upper: bool)
    ensures AllDigits(Digits(num, base, upper), base)
    ensures Value(Digits(num, base, upper), base) == num
  {
    hide DigitValue, Digit;
    var s := Digits(num, base, upper);
    if num < base {
      DigitRoundTrip(num, upper);
      assert s[..|s| - 1] == [];
    } else {
      DigitsValue(num / base, base, upper);
      DigitRoundTrip(num % base, upper);
      assert s[..|s| - 1] == Digits(num / base, base, upper);
      Split(num, base);
    }
  }

  /** A number below 2^n has at most n digits, whatever the base. */
  lemma {:induction false} DigitsLength(num: nat, base: Base, upper: bool, n: nat)
    requires 0 < n && num < Pow2(n)
    ensures |Digits(num, base, upper)| <= n
  {
    if num >= base {
      assert num / base <= num / 2 by {
        QuotientOrder(num, base);
      }
      assert n > 1;
      DigitsLength(num / base, base, upper, n - 1);
    }
  }

  lemma QuotientOrder(num: nat, base: Base)
    ensures num / base <= num / 2
  {
    Split(num, base);
    var q := num / base;
    assert q * base >= q * 2;
  }

  lemma {:induction false} ValueAppend(s: string, t: string, base: Base)
    requires AllDigits(s, base) && Value(s, base) == 0
    ensures Value(s + t, base) == Value(t, base)
  {
    if t == [] {
      assert s + t == s;
    } else {
      var front := t[..|t| - 1];
      assert (s + t)[..|s + t| - 1] == s + front;
      ValueAppend(s, front, base);
    }
  }

  // ---------- the digit buffer ----------

  /** The buffer of ksprintn: a 64-bit number in base 2 and a NUL byte. */
  const MAXNBUF: nat := 65

  function Reversed(s: string): (r: string)
    ensures |r| == |s| && forall i :: 0 <= i < |s| ==> r[i] == s[|s| - 1 - i]
  {
    seq(|s|, i requires 0 <= i < |s| => s[|s| - 1 - i])
  }

  lemma ReversedSnoc(s: string, c: char)
    ensures Reversed(s + [c]) == [c] + Reversed(s)
  {
  }

  lemma ReversedTwice(s: string)
    ensures Reversed(Reversed(s)) == s
  {
  }

  /** The last digit, and what is left of the number without it. */
  method PeelDigit(num: nat, base: Base, upper: bool) returns (c: char, quotient: nat)
    ensures quotient < num || quotient == 0
    ensures Digits(num, base, upper) == (if quotient == 0 then "" else Digits(quotient, base, upper)) + [c]
  {
    LastDigit(num, base, upper);
    c, quotient := Digit(num % base, upper), num / base;
  }

  /** ksprintn: the digits in reverse order behind a NUL byte; p is the index of the first digit of
      the number. */
  method KsPrintN(buffer: array<char>, num: DoubleWord, base: Base, upper: bool) returns (p: nat)
    requires buffer.Length >= MAXNBUF
    modifies buffer
    ensures p == |Digits(num, base, upper)| < MAXNBUF
    ensures buffer[0] == '\0' && buffer[1..p + 1] == Reversed(Digits(num, base, upper))
  {
    hide Digit, Digits, Reversed, Pow2;
    ghost var all := Digits(num, base, upper);
    Pow2Widths();
    DigitsLength(num, base, upper, 64);
    p := 0;
    buffer[0] := '\0';
    var rest: nat := num;
    ghost var written: string := "";
    assert all == all + Reversed(written);
    while true
      invariant p == |written| < |all|
      invariant buffer[..p + 1] == ['\0'] + written
      invariant all == Digits(rest, base, upper) + Reversed(written)
      decreases rest
    {
      p := p + 1;
      var c, quotient := PeelDigit(rest, base, upper);
      buffer[p] := c;
      assert buffer[..p + 1] == buffer[..p] + [c];
      ReversedSnoc(written, c);
      written := written + [c];
      rest := quotient;
      if rest == 0 {
        break;
      }
    }
    assert buffer[1..p + 1] == buffer[..p + 1][1..];
    ReversedTwice(written);
  }

  lemma LastDigit(num: nat, base: Base, upper: bool)
    ensures num / base < num || num == 0
    ensures num / base == 0 ==> Digits(num, base, upper) == [Digit(num % base, upper)]
    ensures num / base != 0 ==> Digits(num, base, upper) == Digits(num / base, base, upper) + [Digit(num % base, upper)]
  {
    QuotientOrder(num, base);
    if num < base {
      DivModUnique(num, base, 0, num);
    } else {
      assert num / base != 0;
    }
  }

  // ---------- the layout of a numeric conversion ----------

  function Repeat(c: char, k: int): (s: string)
    ensures |s| == (if k > 0 then k else 0) && forall i :: 0 <= i < |s| ==> s[i] == c
  {
    if k > 0 then seq(k, _ => c) else []
  }

  function Max(a: int, b: int): int {
    if a > b then a else b
  }

  /** The flags of a conversion that a number depends on. */
  datatype Layout = Layout(base: Base, upper: bool, sign: bool, sharp: bool, ladjust: bool, zero: bool,
                           width: int, precision: int)

  /** The 64-bit argument is negative when it is read as signed and its top bit is set. */
  predicate Negative(f: Layout, num: DoubleWord) {
    f.sign && num >= TWO63
  }

  function Magnitude(f: Layout, num: DoubleWord): (m: DoubleWord)
  {
    if Negative(f, num) then TWO64 - num else num
  }

  function Prefix(f: Layout, m: nat): string {
    if !f.sharp || m == 0 then "" else if f.base == 8 then "0" else if f.base == 16 then "0x" else ""
  }

  /** Sign and prefix. */
  function Lead(f: Layout, num: DoubleWord): string {
    (if Negative(f, num) then "-" else "") + Prefix(f, Magnitude(f, num))
  }

  /** The precision in effect: zero padding replaces it by the room the width leaves. */
  function Precision(f: Layout, num: DoubleWord): int {
    if !f.ladjust && f.zero then f.width - |Lead(f, num)| else f.precision
  }

  function Body(f: Layout, num: DoubleWord): string {
    var digits := Digits(Magnitude(f, num), f.base, f.upper);
    Lead(f, num) + (Repeat('0', Precision(f, num) - |digits|) + digits)
  }

  function NumberText(f: Layout, num: DoubleWord): string {
    var spaces := Repeat(' ', f.width - |Body(f, num)|);
    if f.ladjust then Body(f, num) + spaces else spaces + Body(f, num)
  }

  lemma NumberLength(f: Layout, num: DoubleWord)
    ensures |NumberText(f, num)| ==
            Max(f.width, |Lead(f, num)| + Max(Precision(f, num), |Digits(Magnitude(f, num), f.base, f.upper)|))
  {
    hide Digits, Precision, Lead;
  }

  // ---------- reading a number back ----------

  function StripLeft(s: string): (r: string) {
    if s != [] && s[0] == ' ' then StripLeft(s[1..]) else s
  }

  function StripRight(s: string): (r: string) {
    if s != [] && s[|s| - 1] == ' ' then StripRight(s[..|s| - 1]) else s
  }

  datatype Reading = Garbage | Number(negative: bool, value: nat)

  function DropPrefix(u: string, base: Base): string {
    if base == 16 && |u| >= 2 && u[..2] == "0x" then u[2..] else u
  }

  /** Surrounding blanks, a minus sign, and in base 16 a prefix 0x are read as usual; what remains
      must be digits. */
  function ReadNumber(s: string, base: Base): Reading {
    var t := StripRight(StripLeft(s));
    var negative := t != [] && t[0] == '-';
    var u := if negative then t[1..] else t;
    var v := DropPrefix(u, base);
    if v != [] && AllDigits(v, base) then Number(negative, Value(v, base)) else Garbage
  }

  lemma {:induction false} StripLeftBlanks(k: int, s: string)
    requires s != [] && s[0] != ' '
    ensures StripLeft(Repeat(' ', k) + s) == s
  {
    var t := Repeat(' ', k) + s;
    if k > 0 {
      assert t[1..] == Repeat(' ', k - 1) + s;
      StripLeftBlanks(k - 1, s);
    } else {
      assert t == s;
    }
  }

  lemma {:induction false} StripRightBlanks(k: int, s: string)
    requires s != [] && s[|s| - 1] != ' '
    ensures StripRight(s + Repeat(' ', k)) == s
  {
    var t := s + Repeat(' ', k);
    if k > 0 {
      assert t[..|t| - 1] == s + Repeat(' ', k - 1);
      StripRightBlanks(k - 1, s);
    } else {
      assert t == s;
    }
  }

  lemma {:induction false} ZerosValue(k: int, base: Base)
    ensures AllDigits(Repeat('0', k), base) && Value(Repeat('0', k), base) == 0
  {
    if k > 0 {
      assert Repeat('0', k)[..k - 1] == Repeat('0', k - 1);
      ZerosValue(k - 1, base);
    }
  }

  /** Reading back the digits behind sign and prefix. */
  lemma ReadBody(f: Layout, num: DoubleWord)
    ensures ReadNumber(Body(f, num), f.base) == Number(Negative(f, num), Magnitude(f, num))
    ensures var b := Body(f, num); b != [] && b[0] != ' ' && b[|b| - 1] != ' '
  {
    hide Digits, DigitValue, Precision;
    var m := Magnitude(f, num);
    var digits := Digits(m, f.base, f.upper);
    var zeros := Repeat('0', Precision(f, num) - |digits|);
    DigitsValue(m, f.base, f.upper);
    ZerosValue(Precision(f, num) - |digits|, f.base);
    ValueAppend(zeros, digits, f.base);
    NoDigits(f.base);
    ReadLead(f, num, zeros + digits);
  }

  lemma NoDigits(base: Base)
    ensures DigitValue(' ') >= base && DigitValue('-') >= base
    ensures base <= 16 ==> DigitValue('x') >= base
    ensures DigitValue('0') == 0
  {
  }

  lemma ReadPrefix(f: Layout, m: nat, v: string)
    requires v != [] && AllDigits(v, f.base)
    ensures var u := Prefix(f, m) + v;
            && DropPrefix(u, f.base) != [] && AllDigits(DropPrefix(u, f.base), f.base)
            && Value(DropPrefix(u, f.base), f.base) == Value(v, f.base)
            && DigitValue(u[0]) < f.base
  {
    hide DigitValue;
    NoDigits(f.base);
    var u := Prefix(f, m) + v;
    if Prefix(f, m) == "0x" {
      assert u[..2] == "0x" && u[2..] == v;
    } else if Prefix(f, m) == "0" {
      assert "0"[..0] == [];
      ValueAppend("0", v, f.base);
    } else {
      assert u == v;
      assert |v| >= 2 && f.base == 16 ==> v[1] != 'x';
    }
  }

  lemma ReadLead(f: Layout, num: DoubleWord, v: string)
    requires v != [] && AllDigits(v, f.base)
    ensures ReadNumber(Lead(f, num) + v, f.base) == Number(Negative(f, num), Value(v, f.base))
    ensures var b := Lead(f, num) + v; b != [] && b[0] != ' ' && b[|b| - 1] != ' '
  {
    hide DigitValue, DropPrefix, Value, Prefix, Negative, Magnitude;
    NoDigits(f.base);
    var m := Magnitude(f, num);
    ReadPrefix(f, m, v);
    var u := Prefix(f, m) + v;
    var b := Lead(f, num) + v;
    assert u[|u| - 1] == v[|v| - 1];
    if Negative(f, num) {
      assert b == "-" + u;
      assert b[1..] == u;
    } else {
      assert b == u;
    }
    assert StripLeft(b) == b && StripRight(b) == b;
  }

  /** The text of a number, read back in its base, gives the number. */
  lemma NumberRoundTrip(f: Layout, num: DoubleWord)
    ensures ReadNumber(NumberText(f, num), f.base) == Number(Negative(f, num), Magnitude(f, num))
  {
    hide Body, Value, AllDigits, Negative, Magnitude;
    var b := Body(f, num);
    var k := f.width - |b|;
    ReadBody(f, num);
    assert StripLeft(b) == b && StripRight(b) == b;
    if f.ladjust {
      StripRightBlanks(k, b);
      assert StripLeft(b + Repeat(' ', k)) == b + Repeat(' ', k);
    } else {
      StripLeftBlanks(k, b);
    }
  }

  /** Printed as signed, the value read back is the two's complement one. */
  function SignedValue(r: Reading): int {
    var v: int := if r.Garbage? then 0 else r.value;
    if r.Number? && r.negative then -v else v
  }

  lemma SignedRoundTrip(f: Layout, num: DoubleWord)
    requires f.sign
    ensures SignedValue(ReadNumber(NumberText(f, num), f.base)) == if num >= TWO63 then num - TWO64 else num
  {
    NumberRoundTrip(f, num);
  }
}
