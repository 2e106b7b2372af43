/** What the conversions of `Printf` print, read by somebody who knows the format string and the
    arguments only. */
module PrintfReads {
  import opened MachineWords
  import opened PrintfNumber
  import opened Printf
  import opened PrintfFormat

  /** The argument of a directive: behind those its width and precision take. */
  function ArgumentAt(d: Directive, next: nat): nat {
    next + (if d.width.Star? then 1 else 0) + (if d.precision.Star? then 1 else 0)
  }

  /** One more than the largest unsigned value of the type a length modifier names. */
  function SizeOf(length: string): nat {
    if length == "hh" then 0x100 else if length == "h" then 0x1_0000 else if length == "" then 0x1_0000_0000
    else 0x1_0000_0000_0000_0000
  }

  function UnsignedArgument(d: Directive, next: nat, args: Args): nat {
    args(ArgumentAt(d, next)).bits % SizeOf(d.length)
  }

  /** The argument as a signed number of its type; char is unsigned. */
  function SignedArgument(d: Directive, next: nat, args: Args): int {
    var v := UnsignedArgument(d, next, args);
    if d.length != "hh" && 2 * v >= SizeOf(d.length) then v - SizeOf(d.length) else v
  }

  function Text(d: Directive, next: nat, args: Args, radix: Base): string
    requires WellFormed(d)
  {
    ConversionText(d.conv, Meaning(d, next, args), args, radix)
  }

  /** The conversions there are. */
  lemma Conversions(c: char)
    ensures Known(c) <==> c in {'%', 'c', 's', 'd', 'i', 'o', 'p', 'r', 'u', 'x', 'X', 'y'}
    ensures Numeric(c) <==> c in {'d', 'i', 'o', 'p', 'r', 'u', 'x', 'X', 'y'}
  {
  }

  lemma WidthTakes(f: Flags, a: Amount, args: Args)
    ensures WidthGiven(f, a, args).next == if a.Star? then f.next + 1 else f.next
    ensures WidthGiven(f, a, args).sign == f.sign
  {
    hide AsInt;
    match a
    case Absent =>
    case Fixed(n) =>
    case Star =>
  }

  lemma PrecisionTakes(f: Flags, a: Amount, args: Args)
    ensures PrecisionGiven(f, a, args).next == if a.Star? then f.next + 1 else f.next
    ensures PrecisionGiven(f, a, args).sign == f.sign
  {
    hide AsInt;
    match a
    case Absent =>
    case Fixed(n) =>
    case Star =>
  }

  lemma LengthTakes(f: Flags, length: string)
    ensures LengthGiven(f, length).next == f.next && LengthGiven(f, length).sign == f.sign
  {
  }

  /** The arguments a directive takes, from `next` on. */
  lemma ArgumentsTaken(d: Directive, next: nat, args: Args)
    ensures Meaning(d, next, args).next == ArgumentAt(d, next)
    ensures NextArg(d.conv, Meaning(d, next, args)) == ArgumentAt(d, next) + (if d.conv == '%' then 0 else 1)
    ensures Meaning(d, next, args).sign <==> '+' in d.flags
  {
    hide WidthGiven, PrecisionGiven, LengthGiven;
    var f := FlagsGiven(d.flags, next);
    var g := WidthGiven(f, d.width, args);
    WidthTakes(f, d.width, args);
    PrecisionTakes(g, d.precision, args);
    LengthTakes(PrecisionGiven(g, d.precision, args), d.length);
  }

  lemma ArgumentOf(d: Directive, next: nat, args: Args)
    requires WellFormed(d)
    ensures var f, bits := Meaning(d, next, args), args(ArgumentAt(d, next)).bits;
            && Unsigned(f, bits) == UnsignedArgument(d, next, args)
            && (if Signed(f, bits) >= TWO63 then Signed(f, bits) - TWO64 else Signed(f, bits)) ==
               SignedArgument(d, next, args)
  {
  }

  function BaseOf(conv: char, radix: Base): Base {
    match conv
    case 'd' => 10
    case 'i' => 10
    case 'u' => 10
    case 'o' => 8
    case 'r' => radix
    case _ => 16
  }

  lemma NumericText(d: Directive, next: nat, args: Args, radix: Base)
    requires WellFormed(d) && Numeric(d.conv)
    ensures var f := Meaning(d, next, args);
            Text(d, next, args, radix) ==
            NumberText(LayoutOf(d.conv, f, radix), NumberOf(d.conv, f, args(ArgumentAt(d, next)).bits))
  {
    hide Meaning, LayoutOf, NumberOf, NumberText, WellFormed;
    ArgumentsTaken(d, next, args);
    Conversions(d.conv);
  }

  /** %u, %o, %x, %X and %r without a plus sign read, in their base, as the argument without a sign. */
  lemma UnsignedReads(d: Directive, next: nat, args: Args, radix: Base)
    requires WellFormed(d) && (d.conv in {'u', 'o', 'x', 'X'} || (d.conv == 'r' && '+' !in d.flags))
    ensures var base := if d.conv == 'u' then 10 else if d.conv == 'o' then 8 else if d.conv == 'r' then radix else 16;
            ReadNumber(Text(d, next, args, radix), base) == Number(false, UnsignedArgument(d, next, args))
  {
    hide ReadNumber, NumberText, Text, Known;
    var f := Meaning(d, next, args);
    NumericText(d, next, args, radix);
    ArgumentOf(d, next, args);
    ArgumentsTaken(d, next, args);
    NumberRoundTrip(LayoutOf(d.conv, f, radix), NumberOf(d.conv, f, args(ArgumentAt(d, next)).bits));
  }

  /** %d, %i, %y and %r with a plus sign read as the argument with its sign. */
  lemma SignedReads(d: Directive, next: nat, args: Args, radix: Base)
    requires WellFormed(d) && (d.conv in {'d', 'i', 'y'} || (d.conv == 'r' && '+' in d.flags))
    ensures var base := if d.conv == 'y' then 16 else if d.conv == 'r' then radix else 10;
            SignedValue(ReadNumber(Text(d, next, args, radix), base)) == SignedArgument(d, next, args)
  {
    hide ReadNumber, NumberText, Text, Known, SignedValue;
    var f := Meaning(d, next, args);
    NumericText(d, next, args, radix);
    ArgumentOf(d, next, args);
    ArgumentsTaken(d, next, args);
    SignedRoundTrip(LayoutOf(d.conv, f, radix), NumberOf(d.conv, f, args(ArgumentAt(d, next)).bits));
  }

  /** %p reads as all 64 bits of the pointer, whatever the length modifier and the sign flag. */
  lemma PointerReads(d: Directive, next: nat, args: Args, radix: Base)
    requires WellFormed(d) && d.conv == 'p'
    ensures ReadNumber(Text(d, next, args, radix), 16) == Number(false, args(ArgumentAt(d, next)).bits)
  {
    hide ReadNumber, NumberText, Text, Known;
    NumericText(d, next, args, radix);
    NumberRoundTrip(LayoutOf('p', Meaning(d, next, args), radix), args(ArgumentAt(d, next)).bits);
  }

  // ---------- letter case ----------

  /** Small letters only. */
  predicate Small(s: string) {
    forall c :: c in s ==> !('A' <= c <= 'Z')
  }

  /** Capital letters only, but for the x of a prefix. */
  predicate Capital(s: string) {
    forall c :: c in s ==> 'a' <= c <= 'z' ==> c == 'x'
  }

  lemma {:induction false} DigitsCase(num: nat, base: Base, upper: bool)
    ensures if upper then (forall c :: c in Digits(num, base, true) ==> !('a' <= c <= 'z'))
            else Small(Digits(num, base, false))
  {
    hide Digit;
    DigitCase(num % base, upper);
    if num >= base {
      DigitsCase(num / base, base, upper);
    } else {
      DigitCase(num, upper);
    }
  }

  lemma DigitCase(d: nat, upper: bool)
    requires d < 36
    ensures var c := Digit(d, upper); if upper then !('a' <= c <= 'z') else !('A' <= c <= 'Z')
  {
    DigitChar(d);
  }

  lemma CaseOfText(l: Layout, num: DoubleWord)
    ensures if l.upper then Capital(NumberText(l, num)) else Small(NumberText(l, num))
  {
    hide Digits;
    DigitsCase(Magnitude(l, num), l.base, l.upper);
  }

  /** Only %X prints capital letters. */
  lemma LetterCase(d: Directive, next: nat, args: Args, radix: Base)
    requires WellFormed(d) && Numeric(d.conv)
    ensures if d.conv == 'X' then Capital(Text(d, next, args, radix)) else Small(Text(d, next, args, radix))
  {
    hide NumberText, Text, Known, Numeric, Capital, Small;
    var f := Meaning(d, next, args);
    NumericText(d, next, args, radix);
    CaseOfText(LayoutOf(d.conv, f, radix), NumberOf(d.conv, f, args(ArgumentAt(d, next)).bits));
  }

  // ---------- width, precision and flags ----------

  lemma {:induction false} DigitsOfEitherCase(num: nat, base: Base)
    ensures |Digits(num, base, true)| == |Digits(num, base, false)|
  {
    hide Digits, Digit;
    LastDigit(num, base, true);
    LastDigit(num, base, false);
    if num / base != 0 {
      DigitsOfEitherCase(num / base, base);
    }
  }

  /** The length of sign and prefix. */
  function LeadOf(d: Directive, f: Flags, base: Base, r: Reading): nat {
    var sharp := if d.conv == 'p' then f.width == 0 else f.sharp;
    (if r.Number? && r.negative then 1 else 0)
    + (if r.Number? && r.value != 0 && sharp then if base == 8 then 1 else if base == 16 then 2 else 0 else 0)
  }

  /** The digits and the zeros in front of them: as many as the precision asks for, or, when zeros fill
      the width, as there is room for. */
  function DigitsShown(f: Flags, lead: nat, base: Base, r: Reading): int {
    Max(if f.zero && !f.ladjust then f.width - lead else f.dwidth,
        if r.Number? then |Digits(r.value, base, false)| else 0)
  }

  /** What a number takes: sign, prefix and digits, and blanks up to the width on the side the alignment
      says. */
  lemma NumericShape(d: Directive, next: nat, args: Args, radix: Base)
    requires WellFormed(d) && Numeric(d.conv)
    ensures var f, text, base := Meaning(d, next, args), Text(d, next, args, radix), BaseOf(d.conv, radix);
            var r := ReadNumber(text, base);
            var lead := LeadOf(d, f, base, r);
            var shown := lead + DigitsShown(f, lead, base, r);
            && r.Number? && |text| == Max(f.width, shown) && |StripRight(StripLeft(text))| == shown
            && (if f.ladjust then text[0] != ' ' else text[|text| - 1] != ' ')
  {
    hide ReadNumber, NumberText, Text, Known, Digits, StripLeft, StripRight, WellFormed, Meaning, Signed, Unsigned;
    var f, bits := Meaning(d, next, args), args(ArgumentAt(d, next)).bits;
    var l, num := LayoutOf(d.conv, f, radix), NumberOf(d.conv, f, bits);
    NumericText(d, next, args, radix);
    NumberRoundTrip(l, num);
    NumberLength(l, num);
    DigitsOfEitherCase(Magnitude(l, num), l.base);
    Stripped(l, num);
  }

  lemma Stripped(l: Layout, num: DoubleWord)
    ensures var text := NumberText(l, num);
            && |StripRight(StripLeft(text))| == |Body(l, num)|
            && |Body(l, num)| == |Lead(l, num)| + Max(Precision(l, num), |Digits(Magnitude(l, num), l.base, l.upper)|)
            && text != [] && (if l.ladjust then text[0] != ' ' else text[|text| - 1] != ' ')
  {
    hide Digits, Lead, Precision;
    ReadBody(l, num);
    var b := Body(l, num);
    var k := l.width - |b|;
    assert StripLeft(b) == b && StripRight(b) == b;
    if l.ladjust {
      StripRightBlanks(k, b);
      assert StripLeft(b + Repeat(' ', k)) == b + Repeat(' ', k);
    } else {
      StripLeftBlanks(k, b);
    }
  }

  /** In base 16 the prefix 0x is there exactly when it is asked for and the number is not 0: by the flag
      #, but for pointers by the absence of a width. */
  lemma HexPrefix(d: Directive, next: nat, args: Args, radix: Base)
    requires WellFormed(d) && d.conv in {'x', 'X', 'p', 'y'}
    ensures var f, text := Meaning(d, next, args), Text(d, next, args, radix);
            'x' in text <==>
            (if d.conv == 'p' then f.width == 0 else '#' in d.flags) && ReadNumber(text, 16) != Number(false, 0)
  {
    hide ReadNumber, NumberText, Text, Known, Digits;
    var f, bits := Meaning(d, next, args), args(ArgumentAt(d, next)).bits;
    var l, num := LayoutOf(d.conv, f, radix), NumberOf(d.conv, f, bits);
    NumericText(d, next, args, radix);
    NumberRoundTrip(l, num);
    HasPrefix(l, num);
  }

  lemma HasPrefix(l: Layout, num: DoubleWord)
    requires l.base == 16
    ensures 'x' in NumberText(l, num) <==> l.sharp && num != 0
  {
    hide Digits, DigitValue;
    var m := Magnitude(l, num);
    DigitsValue(m, 16, l.upper);
    NoDigits(16);
    var digits := Digits(m, 16, l.upper);
    assert 'x' !in digits;
    var zeros := Repeat('0', Precision(l, num) - |digits|);
    var spaces := Repeat(' ', l.width - |Body(l, num)|);
    assert 'x' in Prefix(l, m) <==> l.sharp && m != 0;
    assert 'x' in Lead(l, num) <==> 'x' in Prefix(l, m);
    assert 'x' in Body(l, num) <==> 'x' in Lead(l, num);
  }

  // ---------- strings and characters ----------

  /** %s shows the string, or "(null)", cut to the precision, at the side the alignment says, and fills the
      width with blanks or zeros. */
  lemma StringShape(d: Directive, next: nat, args: Args, radix: Base)
    requires WellFormed(d) && d.conv == 's'
    ensures var f, text, arg := Meaning(d, next, args), Text(d, next, args, radix), args(ArgumentAt(d, next));
            var all := if arg.bits == 0 then "(null)" else arg.text;
            var n := if d.precision.Absent? then |all| else if f.dwidth < 0 then 0 else Min(f.dwidth, |all|);
            var fill := if f.zero then '0' else ' ';
            && |text| == Max(f.width, n)
            && (if f.ladjust then text[..n] == all[..n] else text[|text| - n..] == all[..n])
            && forall k :: 0 <= k < |text| && (if f.ladjust then n <= k else k < |text| - n) ==> text[k] == fill
  {
    ArgumentsTaken(d, next, args);
  }

  /** %c shows the low byte of its argument, and %% a percent sign. */
  lemma CharacterShape(d: Directive, next: nat, args: Args, radix: Base)
    requires WellFormed(d) && (d.conv == 'c' || d.conv == '%')
    ensures Text(d, next, args, radix) ==
            if d.conv == '%' then "%" else [(args(ArgumentAt(d, next)).bits % 0x100) as char]
  {
    ArgumentsTaken(d, next, args);
  }

  /** Any radix from 2 to 36 is taken, instead of any other 10. */
  lemma RadixTaken(radix: int)
    ensures RadixOf(radix) == radix <==> 2 <= radix <= 36
    ensures RadixOf(radix) != radix ==> RadixOf(radix) == 10
    ensures TextOf(NullFormat) == "(fmt null)\n"
  {
  }
}
