/** The printf engine of common/stdlib/subr_prf.c: scanning of a format, conversions and the bounded
    output of vsnprintf. */
module Printf {
  import opened MachineWords
  import opened PrintfNumber

  /** One 64-bit slot of the argument list, and the string found at the address it holds. */
  datatype Arg = Arg(bits: DoubleWord, text: string)

  type Args = nat -> Arg

  // ---------- what a conversion prints ----------

  /** Flags, width, precision and length modifiers of a conversion, and the next argument. */
  datatype Flags = Flags(sign: bool, sharp: bool, ladjust: bool, dot: bool, zero: bool, width: int, dwidth: int,
                         cflag: bool, hflag: bool, jflag: bool, lflag: bool, qflag: bool, tflag: bool, zflag: bool,
                         next: nat)

  function NoFlags(next: nat): Flags {
    Flags(false, false, false, false, false, 0, 0, false, false, false, false, false, false, false, next)
  }

  function AsInt(bits: DoubleWord): int {
    var v := bits % TWO32; if v >= 0x8000_0000 then v - TWO32 else v
  }

  /** The value of the low part below `size` as a 64-bit two's complement number. */
  function SignExtend(bits: DoubleWord, size: nat): DoubleWord
    requires 0 < size <= TWO64
  {
    var v := bits % size; if 2 * v >= size then TWO64 - size + v else v
  }

  function Unsigned(f: Flags, bits: DoubleWord): DoubleWord {
    if f.jflag || f.qflag || f.tflag || f.lflag || f.zflag then bits
    else if f.hflag then bits % TWO16
    else if f.cflag then bits % TWO8
    else bits % TWO32
  }

  /** A plain char is unsigned on this machine. */
  function Signed(f: Flags, bits: DoubleWord): DoubleWord {
    if f.jflag || f.qflag || f.tflag || f.lflag || f.zflag then bits
    else if f.hflag then SignExtend(bits, TWO16)
    else if f.cflag then bits % TWO8
    else SignExtend(bits, TWO32)
  }

  predicate Numeric(conv: char) {
    conv in "diopruxXy"
  }

  function LayoutOf(conv: char, f: Flags, radix: Base): Layout {
    var base := if conv == 'd' || conv == 'i' || conv == 'u' then 10 else if conv == 'o' then 8
                else if conv == 'r' then radix else 16;
    var sign := conv == 'd' || conv == 'i' || conv == 'y' || (conv == 'r' && f.sign);
    var sharp := if conv == 'p' then f.width == 0 else f.sharp;
    Layout(base, conv == 'X', sign, sharp, f.ladjust, f.zero, f.width, f.dwidth)
  }

  function NumberOf(conv: char, f: Flags, bits: DoubleWord): DoubleWord {
    if conv == 'p' then bits
    else if conv == 'd' || conv == 'i' || conv == 'y' || (conv == 'r' && f.sign) then Signed(f, bits)
    else Unsigned(f, bits)
  }

  function Shown(f: Flags, text: string): (s: string)
    ensures s <= text
  {
    if !f.dot || f.dwidth >= |text| then text else if f.dwidth < 0 then "" else text[..f.dwidth]
  }

  function TextText(f: Flags, arg: Arg): string {
    var shown := Shown(f, if arg.bits == 0 then "(null)" else arg.text);
    var pad := Repeat(if f.zero then '0' else ' ', f.width - |shown|);
    if f.ladjust then shown + pad else pad + shown
  }

  function CharText(bits: DoubleWord): string {
    [(bits % TWO8) as char]
  }

  predicate Known(conv: char) {
    conv == '%' || conv == 'c' || conv == 's' || Numeric(conv)
  }

  function ConversionText(conv: char, f: Flags, args: Args, radix: Base): string
    requires Known(conv)
  {
    if conv == '%' then "%"
    else if conv == 'c' then CharText(args(f.next).bits)
    else if conv == 's' then TextText(f, args(f.next))
    else NumberText(LayoutOf(conv, f, radix), NumberOf(conv, f, args(f.next).bits))
  }

  /** The first argument a conversion leaves for the next one. */
  function NextArg(conv: char, f: Flags): nat {
    if conv == '%' then f.next else f.next + 1
  }

  // ---------- scanning ----------

  predicate IsDigit(c: char) {
    '0' <= c <= '9'
  }

  predicate IsModifier(c: char) {
    IsDigit(c) || c in ".#+-*hjlqtz"
  }

  function NumberEnd(fmt: string, i: nat): (e: nat)
    requires i <= |fmt|
    ensures i <= e <= |fmt|
    ensures i < |fmt| && IsDigit(fmt[i]) ==> i < e
    decreases |fmt| - i
  {
    if i < |fmt| && IsDigit(fmt[i]) then NumberEnd(fmt, i + 1) else i
  }

  /** The conversion character behind position i. */
  function ConvAt(fmt: string, i: nat): (e: nat)
    requires i <= |fmt|
    ensures i <= e <= |fmt|
    decreases |fmt| - i
  {
    if i < |fmt| && IsModifier(fmt[i]) then ConvAt(fmt, i + 1) else i
  }

  /** The effect of a modifier other than a number. */
  function Modified(f: Flags, c: char, args: Args): Flags {
    match c
    case '.' => f.(dot := true)
    case '#' => f.(sharp := true)
    case '+' => f.(sign := true)
    case '-' => f.(ladjust := true)
    case '0' => f.(zero := true)
    case '*' =>
      var n := AsInt(args(f.next).bits);
      if f.dot then f.(dwidth := n, next := f.next + 1)
      else if n < 0 then f.(ladjust := !f.ladjust, width := -n, next := f.next + 1)
      else f.(width := n, next := f.next + 1)
    case 'h' => if f.hflag then f.(hflag := false, cflag := true) else f.(hflag := true)
    case 'l' => if f.lflag then f.(lflag := false, qflag := true) else f.(lflag := true)
    case 'j' => f.(jflag := true)
    case 'q' => f.(qflag := true)
    case 't' => f.(tflag := true)
    case 'z' => f.(zflag := true)
    case _ => f
  }

  function WithNumber(f: Flags, n: nat): Flags {
    if f.dot then f.(dwidth := n) else f.(width := n)
  }

  /** Digits are a width or a precision, except for a 0 before the dot, which is a flag. */
  predicate StartsNumber(f: Flags, c: char) {
    IsDigit(c) && (c != '0' || f.dot)
  }

  function ScanFlags(fmt: string, i: nat, f: Flags, args: Args): Flags
    requires i <= |fmt|
    decreases |fmt| - i
  {
    if i == |fmt| || !IsModifier(fmt[i]) then f
    else if StartsNumber(f, fmt[i]) then
      var e := NumberEnd(fmt, i);
      ScanFlags(fmt, e, WithNumber(f, Value(fmt[i..e], 10)), args)
    else ScanFlags(fmt, i + 1, Modified(f, fmt[i], args), args)
  }

  /** Every conversion is complete, and none is %b, %D or %n, up to the first unknown one, behind
      which the format is copied. */
  predicate Supported(fmt: string, i: nat)
    requires i <= |fmt|
    decreases |fmt| - i
  {
    if i == |fmt| then true
    else if fmt[i] != '%' then Supported(fmt, i + 1)
    else
      var at := ConvAt(fmt, i + 1);
      at < |fmt| && fmt[at] !in "bDn" && (Known(fmt[at]) ==> Supported(fmt, at + 1))
  }

  /** What the engine prints for the format from position i on, with `next` the first argument not
      used yet. */
  function Output(fmt: string, i: nat, next: nat, args: Args, radix: Base): string
    requires i <= |fmt| && Supported(fmt, i)
    decreases |fmt| - i
  {
    if i == |fmt| then ""
    else if fmt[i] != '%' then [fmt[i]] + Output(fmt, i + 1, next, args, radix)
    else
      var f, at := ScanFlags(fmt, i + 1, NoFlags(next), args), ConvAt(fmt, i + 1);
      if Known(fmt[at]) then
        ConversionText(fmt[at], f, args, radix) + Output(fmt, at + 1, NextArg(fmt[at], f), args, radix)
      else fmt[i..]
  }

  // ---------- the bounded output ----------

  /** The state of vsnprintf: the cursor of snprintf_func, and the characters counted so far. */
  class Sink {
    const str: array<char>
    const size: nat
    var next: nat
    var remain: nat
    var retval: nat
    ghost var output: string
    ghost const before: string

    ghost predicate Valid()
      reads this, str
    {
      && size <= str.Length == |before|
      && next + remain == size && (size > 0 ==> next == Min(|output|, size - 1))
      && str[..] == output[..next] + before[next..]
      && retval == |output|
    }

    constructor (str: array<char>, size: nat)
      requires size <= str.Length
      ensures Valid() && this.str == str && this.size == size && before == str[..] && output == ""
    {
      this.str, this.size, next, remain, retval := str, size, 0, size, 0;
      output, before := "", str[..];
    }

    /** PCHAR with snprintf_func. */
    method Put(ch: char)
      requires Valid()
      modifies this, str
      ensures Valid() && output == old(output) + [ch]
    {
      if remain >= 2 {
        str[next] := ch;
        next := next + 1;
        remain := remain - 1;
      }
      retval := retval + 1;
      output := output + [ch];
    }

    method Counted() returns (n: nat)
      requires Valid()
      ensures n == |output|
    {
      n := retval;
    }

    /** `while (n-- > 0) PCHAR(c)`. */
    method PutRepeated(c: char, n: int)
      requires Valid()
      modifies this, str
      ensures Valid() && output == old(output) + Repeat(c, n)
    {
      var left := n;
      while left > 0
        invariant left <= n && (n <= 0 || 0 <= left)
        invariant Valid() && output == old(output) + Repeat(c, if n > 0 then n - left else 0)
      {
        left := left - 1;
        Put(c);
      }
    }

    method PutAll(s: string)
      requires Valid()
      modifies this, str
      ensures Valid() && output == old(output) + s
    {
      for i := 0 to |s|
        invariant Valid() && output == old(output) + s[..i]
      {
        Put(s[i]);
        assert s[..i] + [s[i]] == s[..i + 1];
      }
    }

    /** `while (*p) PCHAR(*p--)`: what the digit buffer holds, backwards down to the NUL. */
    method PutBackwards(buffer: array<char>, p: nat)
      requires Valid() && buffer != str
      requires p < buffer.Length && buffer[0] == '\0' && '\0' !in buffer[1..p + 1]
      modifies this, str
      ensures Valid() && output == old(output) + Reversed(old(buffer[1..p + 1]))
    {
      var q := p;
      ghost var digits := buffer[1..p + 1];
      assert forall i :: 0 <= i < |digits| ==> digits[i] != '\0';
      while buffer[q] != '\0'
        invariant 0 <= q <= p && buffer[1..p + 1] == digits && buffer[0] == '\0'
        invariant q > 0 ==> buffer[q] == digits[q - 1]
        invariant Valid() && output == old(output) + Reversed(digits)[..p - q]
        decreases q
      {
        assert Reversed(digits)[p - q] == digits[q - 1] == buffer[q];
        assert Reversed(digits)[..p - q] + [buffer[q]] == Reversed(digits)[..p - q + 1];
        Put(buffer[q]);
        q := q - 1;
      }
    }
  }

  /** Sign and prefix. */
  method PutLead(sink: Sink, f: Layout, num: DoubleWord, neg: bool, ghost arg: DoubleWord)
    requires sink.Valid() && neg == Negative(f, arg) && num == Magnitude(f, arg)
    modifies sink, sink.str
    ensures sink.Valid() && sink.output == old(sink.output) + Lead(f, arg)
  {
    hide Sink.Valid;
    if neg {
      sink.Put('-');
    }
    if f.sharp && num != 0 {
      if f.base == 8 {
        sink.Put('0');
      } else if f.base == 16 {
        sink.Put('0');
        sink.Put('x');
      }
    }
  }

  function LeadLength(f: Layout, num: nat, neg: bool): nat {
    |Prefix(f, num)| + (if neg then 1 else 0)
  }

  /** The numeric branch behind the label `number`. */
  method PutNumber(sink: Sink, buffer: array<char>, f: Layout, arg: DoubleWord)
    requires sink.Valid() && buffer != sink.str && buffer.Length >= MAXNBUF
    modifies sink, sink.str, buffer
    ensures sink.Valid() && sink.output == old(sink.output) + NumberText(f, arg)
  {
    hide Sink.Valid, Digits, Reversed, Prefix, Repeat, NumberText;
    var num, neg := arg, false;
    if f.sign && num >= TWO63 {
      neg := true;
      num := TWO64 - num;
    }
    var n := KsPrintN(buffer, num, f.base, f.upper);
    NoNul(num, f.base, f.upper);
    var tmp := LeadLength(f, num, neg);
    var dwidth := f.precision;
    if !f.ladjust && f.zero {
      dwidth := f.width - tmp;
    }
    var width := f.width - (tmp + Max(dwidth, n));
    dwidth := dwidth - n;
    if !f.ladjust {
      sink.PutRepeated(' ', width);
    } else {
      assert sink.output == old(sink.output) + "";
    }
    PutLead(sink, f, num, neg, arg);
    sink.PutRepeated('0', dwidth);
    sink.PutBackwards(buffer, n);
    if f.ladjust {
      sink.PutRepeated(' ', width);
    } else {
      assert sink.output == sink.output + "";
    }
    Assembled(f, arg, old(sink.output), width);
  }

  lemma Assembled(f: Layout, arg: DoubleWord, was: string, width: int)
    requires width == f.width - (|Lead(f, arg)| +
                      Max(Precision(f, arg), |Digits(Magnitude(f, arg), f.base, f.upper)|))
    ensures var digits := Digits(Magnitude(f, arg), f.base, f.upper);
            was + (if f.ladjust then "" else Repeat(' ', width)) + Lead(f, arg)
              + Repeat('0', Precision(f, arg) - |digits|) + digits
              + (if f.ladjust then Repeat(' ', width) else "") ==
            was + NumberText(f, arg)
  {
    hide Lead, Precision, Digits, Repeat;
    var digits := Digits(Magnitude(f, arg), f.base, f.upper);
    var zeros := Repeat('0', Precision(f, arg) - |digits|);
    var spaces := Repeat(' ', width);
    if f.ladjust {
      Associate(was, "", Lead(f, arg), zeros, digits, spaces);
    } else {
      Associate(was, spaces, Lead(f, arg), zeros, digits, "");
    }
  }

  lemma Associate(a: string, b: string, c: string, d: string, e: string, f: string)
    ensures a + b + c + d + e + f == a + (b + (c + (d + e)) + f)
    ensures b == "" ==> a + b + c + d + e + f == a + (c + (d + e) + f)
    ensures f == "" ==> a + b + c + d + e + f == a + (b + (c + (d + e)))
  {
  }

  lemma NoNul(num: nat, base: Base, upper: bool)
    ensures '\0' !in Reversed(Digits(num, base, upper))
    ensures Reversed(Reversed(Digits(num, base, upper))) == Digits(num, base, upper)
  {
    DigitsValue(num, base, upper);
    ReversedTwice(Digits(num, base, upper));
  }

  /** The string conversion. */
  method PutText(sink: Sink, f: Flags, arg: Arg)
    requires sink.Valid()
    modifies sink, sink.str
    ensures sink.Valid() && sink.output == old(sink.output) + TextText(f, arg)
  {
    hide Sink.Valid, Repeat;
    var p := if arg.bits == 0 then "(null)" else arg.text;
    var n := 0;
    if !f.dot {
      n := |p|;
    } else {
      while n < f.dwidth && n < |p|
        invariant 0 <= n <= |p| && (n > 0 ==> n <= f.dwidth)
      {
        n := n + 1;
      }
    }
    assert p[..n] == Shown(f, p);
    var width := f.width - n;
    var padc := if f.zero then '0' else ' ';
    TextAssembled(old(sink.output), p[..n], padc, width);
    if !f.ladjust {
      sink.PutRepeated(padc, width);
    }
    sink.PutAll(p[..n]);
    if f.ladjust {
      sink.PutRepeated(padc, width);
    }
  }

  lemma TextAssembled(was: string, shown: string, padc: char, width: int)
    ensures was + Repeat(padc, width) + shown == was + (Repeat(padc, width) + shown)
    ensures was + shown + Repeat(padc, width) == was + (shown + Repeat(padc, width))
  {
  }

  // ---------- kvprintf and vsnprintf ----------

  lemma {:induction false} DigitsSkipped(fmt: string, i: nat)
    requires i <= |fmt|
    ensures ConvAt(fmt, NumberEnd(fmt, i)) == ConvAt(fmt, i)
    decreases |fmt| - i
  {
    if i < |fmt| && IsDigit(fmt[i]) {
      DigitsSkipped(fmt, i + 1);
    }
  }

  /** The number starting at position i. */
  method ScanNumber(fmt: string, i: nat) returns (n: nat, e: nat)
    requires i <= |fmt|
    ensures e == NumberEnd(fmt, i) && n == Value(fmt[i..e], 10)
  {
    n, e := 0, i;
    while e < |fmt| && IsDigit(fmt[e])
      invariant i <= e <= |fmt| && NumberEnd(fmt, e) == NumberEnd(fmt, i)
      invariant n == Value(fmt[i..e], 10)
    {
      n := n * 10 + (fmt[e] - '0') as nat;
      assert fmt[i..e + 1][..e - i] == fmt[i..e];
      e := e + 1;
    }
  }

  /** The loop behind the label `reswitch`. */
  method ScanConversion(fmt: string, start: nat, next: nat, args: Args) returns (f: Flags, at: nat)
    requires start <= |fmt| && ConvAt(fmt, start) < |fmt|
    ensures f == ScanFlags(fmt, start, NoFlags(next), args) && at == ConvAt(fmt, start)
  {
    f, at := NoFlags(next), start;
    while IsModifier(fmt[at])
      invariant start <= at <= |fmt| && ConvAt(fmt, at) == ConvAt(fmt, start)
      invariant ScanFlags(fmt, at, f, args) == ScanFlags(fmt, start, NoFlags(next), args)
      decreases |fmt| - at
    {
      if StartsNumber(f, fmt[at]) {
        DigitsSkipped(fmt, at);
        var n, e := ScanNumber(fmt, at);
        f, at := WithNumber(f, n), e;
      } else {
        f, at := Modified(f, fmt[at], args), at + 1;
      }
    }
  }

  datatype Format = NullFormat | Format(text: string)

  function TextOf(format: Format): string {
    if format.NullFormat? then "(fmt null)\n" else format.text
  }

  function RadixOf(radix: int): Base {
    if radix < 2 || radix > 36 then 10 else radix
  }

  /** The branches of the conversions that print something of their own. */
  method Convert(sink: Sink, buffer: array<char>, conv: char, f: Flags, args: Args, radix: Base)
    requires sink.Valid() && buffer != sink.str && buffer.Length >= MAXNBUF && Known(conv)
    modifies sink, sink.str, buffer
    ensures sink.Valid() && sink.output == old(sink.output) + ConversionText(conv, f, args, radix)
  {
    hide Sink.Valid, LayoutOf, NumberOf, NumberText, TextText;
    if conv == '%' {
      sink.Put(conv);
    } else if conv == 'c' {
      sink.Put((args(f.next).bits % TWO8) as char);
    } else if conv == 's' {
      PutText(sink, f, args(f.next));
    } else {
      PutNumber(sink, buffer, LayoutOf(conv, f, radix), NumberOf(conv, f, args(f.next).bits));
    }
  }

  /** What is still to be printed: behind an unknown conversion the format is only copied. */
  function Remaining(fmt: string, i: nat, next: nat, stop: bool, args: Args, radix: Base): string
    requires i <= |fmt| && (stop || Supported(fmt, i))
  {
    if stop then fmt[i..] else Output(fmt, i, next, args, radix)
  }

  lemma CopyStep(fmt: string, i: nat, next: nat, stop: bool, args: Args, radix: Base)
    requires i < |fmt| && (stop || (Supported(fmt, i) && fmt[i] != '%'))
    ensures stop || Supported(fmt, i + 1)
    ensures Remaining(fmt, i, next, stop, args, radix) == [fmt[i]] + Remaining(fmt, i + 1, next, stop, args, radix)
  {
    assert fmt[i..] == [fmt[i]] + fmt[i + 1..];
  }

  lemma ConversionStep(fmt: string, i: nat, next: nat, args: Args, radix: Base, f: Flags, at: nat)
    requires i < |fmt| && fmt[i] == '%' && Supported(fmt, i)
    requires at == ConvAt(fmt, i + 1) && f == ScanFlags(fmt, i + 1, NoFlags(next), args)
    ensures at < |fmt|
    ensures Known(fmt[at]) ==>
              && Supported(fmt, at + 1)
              && Remaining(fmt, i, next, false, args, radix) ==
                 ConversionText(fmt[at], f, args, radix) + Remaining(fmt, at + 1, NextArg(fmt[at], f), false, args, radix)
    ensures !Known(fmt[at]) ==>
              Remaining(fmt, i, next, false, args, radix) ==
              fmt[i..at + 1] + Remaining(fmt, at + 1, next, true, args, radix)
  {
    hide ConversionText, Known, ScanFlags;
    assert fmt[i..] == fmt[i..at + 1] + fmt[at + 1..];
  }

  /** kvprintf; it returns the characters it counted. */
  method KvPrintf(sink: Sink, format: Format, args: Args, radix: int) returns (retval: nat)
    requires sink.Valid() && sink.output == "" && Supported(TextOf(format), 0)
    modifies sink, sink.str
    ensures sink.Valid() && sink.output == Output(TextOf(format), 0, 0, args, RadixOf(radix))
    ensures retval == |sink.output|
  {
    hide Sink.Valid, ScanFlags, ConversionText, Known, Supported, Output, Remaining, ConvAt, TextOf, RadixOf, NextArg;
    var buffer := new char[MAXNBUF];
    var fmt, base := TextOf(format), RadixOf(radix);
    var i: nat, next: nat, stop := 0, 0, false;
    ghost var all := Remaining(fmt, 0, 0, false, args, base);
    while i < |fmt|
      invariant i <= |fmt| && (stop || Supported(fmt, i))
      invariant sink.Valid() && all == sink.output + Remaining(fmt, i, next, stop, args, base)
    {
      var ch := fmt[i];
      if ch != '%' || stop {
        CopyStep(fmt, i, next, stop, args, base);
        sink.Put(ch);
        i := i + 1;
      } else {
        var percent := i;
        ConversionStep(fmt, i, next, args, base, ScanFlags(fmt, i + 1, NoFlags(next), args), ConvAt(fmt, i + 1));
        var f, at := ScanConversion(fmt, i + 1, next, args);
        i := at + 1;
        if Known(fmt[at]) {
          Convert(sink, buffer, fmt[at], f, args, base);
          next := NextArg(fmt[at], f);
        } else {
          sink.PutAll(fmt[percent..i]);
          stop := true;
        }
      }
    }
    NothingRemains(fmt, next, stop, args, base);
    retval := sink.Counted();
  }

  lemma NothingRemains(fmt: string, next: nat, stop: bool, args: Args, radix: Base)
    requires stop || Supported(fmt, |fmt|)
    ensures Remaining(fmt, |fmt|, next, stop, args, radix) == ""
    ensures Supported(fmt, 0) ==> Remaining(fmt, 0, 0, false, args, radix) == Output(fmt, 0, 0, args, radix)
  {
  }

  /** vsnrprintf, and with radix 10 vsnprintf: of the output of the engine the first size - 1
      characters and a NUL are stored, nothing when the size is 0; the result counts all of it,
      whatever the size. */
  method VsnrPrintf(str: array<char>, size: nat, radix: int, format: Format, args: Args) returns (retval: nat)
    requires size <= str.Length && Supported(TextOf(format), 0)
    modifies str
    ensures retval == |Output(TextOf(format), 0, 0, args, RadixOf(radix))|
    ensures size == 0 ==> str[..] == old(str[..])
    ensures size > 0 ==>
              var kept := Min(retval, size - 1);
              str[..] == Output(TextOf(format), 0, 0, args, RadixOf(radix))[..kept] + ['\0'] + old(str[kept + 1..])
  {
    hide Output, Supported, Sink.Valid, TextOf, RadixOf;
    var info := new Sink(str, size);
    retval := KvPrintf(info, format, args, radix);
    Terminate(info);
  }

  method Terminate(info: Sink)
    requires info.Valid()
    modifies info.str, info
    ensures info.size == 0 ==> info.str[..] == info.before
    ensures info.size > 0 ==>
              var kept := Min(|old(info.output)|, info.size - 1);
              info.str[..] == old(info.output)[..kept] + ['\0'] + info.before[kept + 1..]
  {
    if info.remain >= 1 {
      info.str[info.next] := '\0';
      info.next := info.next + 1;
    }
  }

  method VsnPrintf(str: array<char>, size: nat, format: Format, args: Args) returns (retval: nat)
    requires size <= str.Length && Supported(TextOf(format), 0)
    modifies str
    ensures retval == |Output(TextOf(format), 0, 0, args, 10)|
    ensures size == 0 ==> str[..] == old(str[..])
    ensures size > 0 ==>
              var kept := Min(retval, size - 1);
              str[..] == Output(TextOf(format), 0, 0, args, 10)[..kept] + ['\0'] + old(str[kept + 1..])
  {
    hide Output, Supported;
    retval := VsnrPrintf(str, size, 10, format, args);
  }
}
