/** Formats as sequences of literal texts and conversion directives, and what the engine of `Printf`
    makes of their spelling. */
module PrintfFormat {
  import opened MachineWords
  import opened PrintfNumber
  import opened Printf

  /** A width or precision: not given, an argument, or a number. */
  datatype Amount = Absent | Star | Fixed(n: nat)

  /** %[flags][width][.precision][length]conversion */
  datatype Directive = Directive(flags: string, width: Amount, precision: Amount, length: string, conv: char)

  datatype Item = Literal(text: string) | Conversion(d: Directive)

  predicate IsFlag(c: char) {
    c == '#' || c == '+' || c == '-' || c == '0'
  }

  predicate WellFormed(d: Directive) {
    && (forall c :: c in d.flags ==> IsFlag(c))
    && (d.width.Fixed? ==> d.width.n > 0)
    && d.length in ["", "h", "hh", "l", "ll", "j", "q", "t", "z"]
    && Known(d.conv)
  }

  predicate AllWellFormed(items: seq<Item>) {
    forall k :: 0 <= k < |items| ==>
      match items[k]
      case Literal(text) => '%' !in text
      case Conversion(d) => WellFormed(d)
  }

  // ---------- spelling ----------

  function SpellAmount(a: Amount): string {
    match a
    case Absent => ""
    case Star => "*"
    case Fixed(n) => Digits(n, 10, false)
  }

  function SpellPrecision(a: Amount): string {
    if a.Absent? then "" else "." + SpellAmount(a)
  }

  function Modifiers(d: Directive): string {
    d.flags + SpellAmount(d.width) + SpellPrecision(d.precision) + d.length
  }

  function SpellItem(item: Item): string {
    match item
    case Literal(text) => text
    case Conversion(d) => "%" + Modifiers(d) + [d.conv]
  }

  function Spell(items: seq<Item>): string {
    if items == [] then "" else SpellItem(items[0]) + Spell(items[1..])
  }

  // ---------- meaning ----------

  function FlagsGiven(s: string, next: nat): Flags {
    NoFlags(next).(sign := '+' in s, sharp := '#' in s, ladjust := '-' in s, zero := '0' in s)
  }

  /** A negative width from an argument swaps the side the text is aligned to. */
  function WidthGiven(f: Flags, a: Amount, args: Args): Flags {
    match a
    case Absent => f
    case Fixed(n) => f.(width := n)
    case Star =>
      var n := AsInt(args(f.next).bits);
      f.(width := if n < 0 then -n else n, ladjust := f.ladjust != (n < 0), next := f.next + 1)
  }

  function PrecisionGiven(f: Flags, a: Amount, args: Args): Flags {
    match a
    case Absent => f
    case Fixed(n) => f.(dot := true, dwidth := n)
    case Star => f.(dot := true, dwidth := AsInt(args(f.next).bits), next := f.next + 1)
  }

  function LengthGiven(f: Flags, length: string): Flags {
    f.(hflag := length == "h", cflag := length == "hh", lflag := length == "l",
       qflag := length == "ll" || length == "q", jflag := length == "j", tflag := length == "t", zflag := length == "z")
  }

  function Meaning(d: Directive, next: nat, args: Args): Flags {
    var f := PrecisionGiven(WidthGiven(FlagsGiven(d.flags, next), d.width, args), d.precision, args);
    LengthGiven(f, d.length)
  }

  function Render(items: seq<Item>, next: nat, args: Args, radix: Base): string
    requires AllWellFormed(items)
  {
    if items == [] then ""
    else
      match items[0]
      case Literal(text) => text + Render(items[1..], next, args, radix)
      case Conversion(d) =>
        var f := Meaning(d, next, args);
        ConversionText(d.conv, f, args, radix) + Render(items[1..], NextArg(d.conv, f), args, radix)
  }

  // ---------- scanning what was spelled ----------

  predicate FoundAt(fmt: string, i: nat, s: string) {
    i + |s| <= |fmt| && fmt[i..i + |s|] == s
  }

  lemma FoundParts(fmt: string, i: nat, s: string, t: string)
    requires FoundAt(fmt, i, s + t)
    ensures FoundAt(fmt, i, s) && FoundAt(fmt, i + |s|, t)
  {
    assert fmt[i..i + |s|] == fmt[i..i + |s + t|][..|s|];
    assert fmt[i + |s|..i + |s + t|] == fmt[i..i + |s + t|][|s|..];
  }

  function WithFlags(f: Flags, s: string): Flags {
    f.(sign := f.sign || '+' in s, sharp := f.sharp || '#' in s,
       ladjust := f.ladjust || '-' in s, zero := f.zero || '0' in s)
  }

  lemma WithFlagsStep(f: Flags, c: char, rest: string, args: Args)
    requires IsFlag(c)
    ensures WithFlags(Modified(f, c, args), rest) == WithFlags(f, [c] + rest)
    ensures Modified(f, c, args).dot == f.dot
  {
    hide Modified;
    ModifiedFlag(f, c, args);
    InCons('+', c, rest);
    InCons('#', c, rest);
    InCons('-', c, rest);
    InCons('0', c, rest);
  }

  lemma ModifiedFlag(f: Flags, c: char, args: Args)
    requires IsFlag(c)
    ensures Modified(f, c, args) == f.(sign := f.sign || c == '+', sharp := f.sharp || c == '#',
                                       ladjust := f.ladjust || c == '-', zero := f.zero || c == '0')
  {
  }

  lemma InCons(x: char, c: char, rest: string)
    ensures x in [c] + rest <==> x == c || x in rest
  {
  }

  lemma ScanStep(fmt: string, i: nat, c: char, f: Flags, args: Args)
    requires FoundAt(fmt, i, [c]) && (IsFlag(c) || c in ".*hjlqtz") && (c == '0' ==> !f.dot)
    ensures ScanFlags(fmt, i, f, args) == ScanFlags(fmt, i + 1, Modified(f, c, args), args)
  {
    hide Modified;
    assert fmt[i] == fmt[i..i + 1][0] == c;
  }

  lemma {:induction false} ScanGivenFlags(fmt: string, i: nat, f: Flags, s: string, args: Args)
    requires FoundAt(fmt, i, s) && !f.dot && forall c :: c in s ==> IsFlag(c)
    ensures ScanFlags(fmt, i, f, args) == ScanFlags(fmt, i + |s|, WithFlags(f, s), args)
    decreases |s|
  {
    hide Modified, WithFlags, ScanFlags;
    if s == [] {
      WithNone(f);
    } else {
      var c, rest := s[0], s[1..];
      assert s == [c] + rest;
      FoundParts(fmt, i, [c], rest);
      assert c in s;
      ScanStep(fmt, i, c, f, args);
      WithFlagsStep(f, c, rest, args);
      ScanGivenFlags(fmt, i + 1, Modified(f, c, args), rest, args);
    }
  }

  lemma WithNone(f: Flags)
    ensures WithFlags(f, []) == f
  {
  }

  lemma {:induction false} NumberEndAt(fmt: string, i: nat, e: nat)
    requires i <= e <= |fmt| && (forall k :: i <= k < e ==> IsDigit(fmt[k]))
    requires e == |fmt| || !IsDigit(fmt[e])
    ensures NumberEnd(fmt, i) == e
    decreases e - i
  {
    if i < e {
      NumberEndAt(fmt, i + 1, e);
    }
  }

  lemma DecimalDigit(c: char)
    ensures DigitValue(c) < 10 <==> IsDigit(c)
    ensures DigitValue(c) == 0 <==> c == '0'
  {
  }

  lemma {:induction false} LeadingDigit(n: nat)
    requires n > 0
    ensures Digits(n, 10, false)[0] != '0'
  {
    hide DigitValue;
    if n < 10 {
      DigitRoundTrip(n, false);
      DecimalDigit(Digit(n, false));
    } else {
      LeadingDigit(n / 10);
    }
  }

  lemma ScanNumberGiven(fmt: string, i: nat, f: Flags, n: nat, args: Args)
    requires FoundAt(fmt, i, Digits(n, 10, false)) && (f.dot || n > 0)
    requires var e := i + |Digits(n, 10, false)|; e < |fmt| && !IsDigit(fmt[e])
    ensures ScanFlags(fmt, i, f, args) == ScanFlags(fmt, i + |Digits(n, 10, false)|, WithNumber(f, n), args)
  {
    hide Digits, DigitValue, Value;
    var s := Digits(n, 10, false);
    DigitsValue(n, 10, false);
    forall k | i <= k < i + |s|
      ensures IsDigit(fmt[k])
    {
      DecimalDigit(s[k - i]);
    }
    NumberEndAt(fmt, i, i + |s|);
    if n > 0 {
      LeadingDigit(n);
    }
    assert fmt[i] == s[0];
    assert StartsNumber(f, fmt[i]);
  }

  lemma {:induction false} ConvAtEnd(fmt: string, i: nat, e: nat)
    requires i <= e < |fmt| && (forall k :: i <= k < e ==> IsModifier(fmt[k])) && !IsModifier(fmt[e])
    ensures ConvAt(fmt, i) == e
    decreases e - i
  {
    if i < e {
      ConvAtEnd(fmt, i + 1, e);
    }
  }

  predicate Stops(fmt: string, e: nat) {
    e < |fmt| && !IsDigit(fmt[e])
  }

  lemma ScanWidth(fmt: string, i: nat, f: Flags, a: Amount, args: Args)
    requires FoundAt(fmt, i, SpellAmount(a)) && !f.dot && f.width == 0 && (a.Fixed? ==> a.n > 0)
    requires Stops(fmt, i + |SpellAmount(a)|)
    ensures ScanFlags(fmt, i, f, args) == ScanFlags(fmt, i + |SpellAmount(a)|, WidthGiven(f, a, args), args)
  {
    hide ScanFlags, Digits, FoundAt;
    match a
    case Absent =>
    case Star =>
      ScanStep(fmt, i, '*', f, args);
    case Fixed(n) =>
      ScanNumberGiven(fmt, i, f, n, args);
  }

  lemma ScanPrecision(fmt: string, i: nat, f: Flags, a: Amount, args: Args)
    requires FoundAt(fmt, i, SpellPrecision(a)) && !f.dot && f.dwidth == 0
    requires Stops(fmt, i + |SpellPrecision(a)|)
    ensures ScanFlags(fmt, i, f, args) == ScanFlags(fmt, i + |SpellPrecision(a)|, PrecisionGiven(f, a, args), args)
  {
    hide ScanFlags, Digits, FoundAt, Modified;
    if !a.Absent? {
      var g := f.(dot := true);
      ModifiedDot(f, args);
      FoundParts(fmt, i, ".", SpellAmount(a));
      ScanStep(fmt, i, '.', f, args);
      if a.Star? {
        ScanStep(fmt, i + 1, '*', g, args);
      } else {
        ScanNumberGiven(fmt, i + 1, g, a.n, args);
      }
    }
  }

  lemma ModifiedDot(f: Flags, args: Args)
    ensures Modified(f, '.', args) == f.(dot := true)
    ensures var g := f.(dot := true); Modified(g, '*', args) == PrecisionGiven(f, Star, args)
  {
  }

  predicate NoLength(f: Flags) {
    !f.hflag && !f.cflag && !f.lflag && !f.qflag && !f.jflag && !f.tflag && !f.zflag
  }

  lemma ScanLength(fmt: string, i: nat, f: Flags, s: string, args: Args)
    requires FoundAt(fmt, i, s) && NoLength(f) && s in ["", "h", "hh", "l", "ll", "j", "q", "t", "z"]
    ensures ScanFlags(fmt, i, f, args) == ScanFlags(fmt, i + |s|, LengthGiven(f, s), args)
  {
    hide ScanFlags, FoundAt, Modified, LengthGiven, NoLength;
    if s == "" {
      LengthNone(f);
    } else if |s| == 1 {
      assert s == [s[0]];
      LengthOne(f, s[0], args);
      ScanStep(fmt, i, s[0], f, args);
    } else {
      assert s == [s[0]] + [s[0]];
      FoundParts(fmt, i, [s[0]], [s[0]]);
      LengthTwo(f, s[0], args);
      ScanStep(fmt, i, s[0], f, args);
      ScanStep(fmt, i + 1, s[0], Modified(f, s[0], args), args);
    }
  }

  lemma LengthNone(f: Flags)
    requires NoLength(f)
    ensures LengthGiven(f, "") == f
  {
  }

  lemma LengthOne(f: Flags, c: char, args: Args)
    requires NoLength(f) && c in "hjlqtz"
    ensures Modified(f, c, args) == LengthGiven(f, [c])
  {
  }

  lemma LengthTwo(f: Flags, c: char, args: Args)
    requires NoLength(f) && (c == 'h' || c == 'l')
    ensures Modified(Modified(f, c, args), c, args) == LengthGiven(f, [c] + [c])
  {
  }

  /** What follows a width or a precision is no digit. */
  lemma NoDigitFirst(s: string, length: string, conv: char)
    requires s == "" || s[0] == '.'
    requires length in ["", "h", "hh", "l", "ll", "j", "q", "t", "z"] && Known(conv)
    ensures var t := s + (length + [conv]); |t| > 0 && !IsDigit(t[0])
  {
    var t := s + (length + [conv]);
    if s == "" {
      assert t == length + [conv];
      assert length == "" || length[0] in "hljqtz";
    }
  }

  lemma FirstStops(fmt: string, i: nat, t: string)
    requires FoundAt(fmt, i, t) && |t| > 0 && !IsDigit(t[0])
    ensures Stops(fmt, i)
  {
    assert fmt[i] == fmt[i..i + |t|][0];
  }

  lemma ConvIsNoModifier(conv: char)
    requires Known(conv)
    ensures !IsModifier(conv)
  {
  }

  lemma ScanEnds(fmt: string, e: nat, conv: char, f: Flags, args: Args)
    requires FoundAt(fmt, e, [conv]) && Known(conv)
    ensures ScanFlags(fmt, e, f, args) == f && fmt[e] == conv && !IsModifier(fmt[e])
  {
    ConvIsNoModifier(conv);
    assert fmt[e] == fmt[e..e + 1][0];
  }

  /** The pieces of a directive lie one behind the other. */
  predicate PiecesAt(fmt: string, i: nat, d: Directive) {
    var i1 := i + |d.flags|;
    var i2 := i1 + |SpellAmount(d.width)|;
    var i3 := i2 + |SpellPrecision(d.precision)|;
    && FoundAt(fmt, i, d.flags) && FoundAt(fmt, i1, SpellAmount(d.width))
    && FoundAt(fmt, i2, SpellPrecision(d.precision)) && FoundAt(fmt, i3, d.length)
    && Stops(fmt, i2) && Stops(fmt, i3)
  }

  lemma FourParts(fmt: string, i: nat, a: string, b: string, p: string, l: string, c: string)
    requires FoundAt(fmt, i, a + b + p + l + c)
    ensures FoundAt(fmt, i, a) && FoundAt(fmt, i + |a|, b) && FoundAt(fmt, i + |a| + |b|, p)
    ensures FoundAt(fmt, i + |a| + |b| + |p|, l)
    ensures FoundAt(fmt, i + |a| + |b|, p + (l + c)) && FoundAt(fmt, i + |a| + |b| + |p|, l + c)
  {
    hide FoundAt;
    assert a + b + p + l + c == a + (b + (p + (l + c)));
    FoundParts(fmt, i, a, b + (p + (l + c)));
    FoundParts(fmt, i + |a|, b, p + (l + c));
    FoundParts(fmt, i + |a| + |b|, p, l + c);
    FoundParts(fmt, i + |a| + |b| + |p|, l, c);
  }

  lemma PiecesFound(fmt: string, i: nat, d: Directive)
    requires WellFormed(d) && FoundAt(fmt, i, Modifiers(d) + [d.conv])
    ensures PiecesAt(fmt, i, d)
  {
    hide FoundAt, SpellAmount, Known, Stops;
    var w, p, l, c := SpellAmount(d.width), SpellPrecision(d.precision), d.length, [d.conv];
    FourParts(fmt, i, d.flags, w, p, l, c);
    NoDigitFirst(p, l, d.conv);
    NoDigitFirst("", l, d.conv);
    assert "" + (l + c) == l + c;
    FirstStops(fmt, i + |d.flags| + |w|, p + (l + c));
    FirstStops(fmt, i + |d.flags| + |w| + |p|, l + c);
  }

  predicate Fresh(f: Flags) {
    !f.dot && f.dwidth == 0 && NoLength(f)
  }

  lemma FlagsFacts(s: string, next: nat)
    ensures FlagsGiven(s, next) == WithFlags(NoFlags(next), s)
    ensures Fresh(FlagsGiven(s, next)) && FlagsGiven(s, next).width == 0 && !NoFlags(next).dot
  {
  }

  lemma WidthFacts(f: Flags, a: Amount, args: Args)
    requires Fresh(f)
    ensures Fresh(WidthGiven(f, a, args))
  {
  }

  lemma PrecisionFacts(f: Flags, a: Amount, args: Args)
    requires Fresh(f)
    ensures NoLength(PrecisionGiven(f, a, args))
  {
  }

  lemma ScanChain(fmt: string, i: nat, d: Directive, next: nat, args: Args)
    requires WellFormed(d) && PiecesAt(fmt, i, d)
    ensures i + |Modifiers(d)| <= |fmt|
    ensures ScanFlags(fmt, i, NoFlags(next), args) ==
            ScanFlags(fmt, i + |Modifiers(d)|, Meaning(d, next, args), args)
  {
    hide ScanFlags, SpellAmount, SpellPrecision, Known, Stops, WithFlags, WidthGiven, PrecisionGiven;
    hide FlagsGiven, NoFlags, NoLength, LengthGiven;
    var i1 := i + |d.flags|;
    var i2 := i1 + |SpellAmount(d.width)|;
    var i3 := i2 + |SpellPrecision(d.precision)|;
    var f0 := FlagsGiven(d.flags, next);
    var f1 := WidthGiven(f0, d.width, args);
    var f2 := PrecisionGiven(f1, d.precision, args);
    FlagsFacts(d.flags, next);
    WidthFacts(f0, d.width, args);
    PrecisionFacts(f1, d.precision, args);
    assert Meaning(d, next, args) == LengthGiven(f2, d.length);
    ScanGivenFlags(fmt, i, NoFlags(next), d.flags, args);
    ScanWidth(fmt, i1, f0, d.width, args);
    ScanPrecision(fmt, i2, f1, d.precision, args);
    ScanLength(fmt, i3, f2, d.length, args);
  }

  /** Scanning a spelled directive finds its conversion character and its meaning. */
  lemma ScanDirective(fmt: string, i: nat, d: Directive, next: nat, args: Args)
    requires WellFormed(d) && FoundAt(fmt, i, Modifiers(d) + [d.conv])
    ensures i + |Modifiers(d)| < |fmt|
    ensures ScanFlags(fmt, i, NoFlags(next), args) == Meaning(d, next, args)
    ensures ConvAt(fmt, i) == i + |Modifiers(d)| && fmt[i + |Modifiers(d)|] == d.conv
  {
    hide ScanFlags, Known, IsModifier, ConvAt, Modifiers, PiecesAt, Meaning;
    PiecesFound(fmt, i, d);
    ScanChain(fmt, i, d, next, args);
    FoundParts(fmt, i, Modifiers(d), [d.conv]);
    ScanEnds(fmt, i + |Modifiers(d)|, d.conv, Meaning(d, next, args), args);
    ModifiersSpelled(fmt, i, d);
    ConvAtEnd(fmt, i, i + |Modifiers(d)|);
  }

  lemma ModifiersSpelled(fmt: string, i: nat, d: Directive)
    requires WellFormed(d) && FoundAt(fmt, i, Modifiers(d))
    ensures forall k :: i <= k < i + |Modifiers(d)| ==> IsModifier(fmt[k])
  {
    hide Known, IsModifier;
    AmountModifiers(d.width);
    AmountModifiers(d.precision);
    OtherModifiers(d);
    var m := Modifiers(d);
    forall k | i <= k < i + |m|
      ensures IsModifier(fmt[k])
    {
      assert fmt[k] == m[k - i];
    }
  }

  predicate OnlyModifiers(s: string) {
    forall k :: 0 <= k < |s| ==> IsModifier(s[k])
  }

  lemma AmountModifiers(a: Amount)
    ensures OnlyModifiers(SpellAmount(a)) && OnlyModifiers(SpellPrecision(a))
  {
    hide Digits, DigitValue;
    if a.Fixed? {
      DigitsValue(a.n, 10, false);
      var s := Digits(a.n, 10, false);
      forall k | 0 <= k < |s|
        ensures IsModifier(s[k])
      {
        DecimalDigit(s[k]);
      }
    }
  }

  lemma OtherModifiers(d: Directive)
    requires WellFormed(d)
    ensures OnlyModifiers(d.flags) && OnlyModifiers(d.length)
  {
    forall k | 0 <= k < |d.flags|
      ensures IsModifier(d.flags[k])
    {
      assert d.flags[k] in d.flags;
    }
  }

  lemma {:induction false} LiteralOutput(fmt: string, i: nat, text: string, next: nat, args: Args, radix: Base)
    requires FoundAt(fmt, i, text) && '%' !in text && Supported(fmt, i + |text|)
    ensures Supported(fmt, i)
    ensures Output(fmt, i, next, args, radix) == text + Output(fmt, i + |text|, next, args, radix)
    decreases |text|
  {
    if text != "" {
      assert text == [text[0]] + text[1..];
      FoundParts(fmt, i, [text[0]], text[1..]);
      assert fmt[i] == fmt[i..i + 1][0];
      LiteralOutput(fmt, i + 1, text[1..], next, args, radix);
    }
  }

  lemma ItemFound(fmt: string, i: nat, item: Item, rest: string)
    requires i <= |fmt| && fmt[i..] == SpellItem(item) + rest
    ensures FoundAt(fmt, i, SpellItem(item)) && fmt[i + |SpellItem(item)|..] == rest
  {
    var spelled := SpellItem(item);
    assert fmt[i..i + |spelled|] == fmt[i..][..|spelled|];
    assert fmt[i + |spelled|..] == fmt[i..][|spelled|..];
  }

  lemma OutputAtPercent(fmt: string, i: nat, at: nat, f: Flags, next: nat, args: Args, radix: Base)
    requires i < at < |fmt| && fmt[i] == '%' && Known(fmt[at]) && fmt[at] !in "bDn" && Supported(fmt, at + 1)
    requires at == ConvAt(fmt, i + 1) && f == ScanFlags(fmt, i + 1, NoFlags(next), args)
    ensures Supported(fmt, i)
    ensures Output(fmt, i, next, args, radix) ==
            ConversionText(fmt[at], f, args, radix) + Output(fmt, at + 1, NextArg(fmt[at], f), args, radix)
  {
    hide ScanFlags, ConvAt, Known, ConversionText;
  }

  lemma ItemSpelling(item: Item)
    ensures item.Literal? ==> SpellItem(item) == item.text
  {
  }

  lemma DirectiveOutput(fmt: string, i: nat, d: Directive, next: nat, args: Args, radix: Base)
    requires WellFormed(d) && FoundAt(fmt, i, SpellItem(Conversion(d)))
    requires Supported(fmt, i + |SpellItem(Conversion(d))|)
    ensures Supported(fmt, i)
    ensures var f := Meaning(d, next, args);
            Known(d.conv) &&
            Output(fmt, i, next, args, radix) ==
            ConversionText(d.conv, f, args, radix)
              + Output(fmt, i + |SpellItem(Conversion(d))|, NextArg(d.conv, f), args, radix)
  {
    hide ScanFlags, ConvAt, Known, ConversionText, Meaning, Modifiers, WellFormed, Supported, Output, NextArg;
    var m := Modifiers(d) + [d.conv];
    assert SpellItem(Conversion(d)) == "%" + m;
    FoundParts(fmt, i, "%", m);
    assert fmt[i] == fmt[i..i + 1][0] == '%';
    ScanDirective(fmt, i + 1, d, next, args);
    KnownOne(d);
    OutputAtPercent(fmt, i, i + |m|, Meaning(d, next, args), next, args, radix);
  }

  /** A format spelled from literals and well-formed directives is supported, and prints the literals
      and the texts of the conversions the directives mean, each with its own arguments. */
  lemma {:induction false} SpelledOutput(fmt: string, i: nat, items: seq<Item>, next: nat, args: Args, radix: Base)
    requires i <= |fmt| && fmt[i..] == Spell(items) && AllWellFormed(items)
    ensures Supported(fmt, i)
    ensures Output(fmt, i, next, args, radix) == Render(items, next, args, radix)
    decreases |items|
  {
    hide WellFormed, SpellItem, Meaning, ScanFlags, ConvAt, Known, ConversionText, NextArg;
    if items == [] {
      assert i == |fmt|;
    } else {
      ItemFound(fmt, i, items[0], Spell(items[1..]));
      ItemSpelling(items[0]);
      match items[0]
      case Literal(text) => SpelledLiteral(fmt, i, text, items, next, args, radix);
      case Conversion(d) => SpelledDirective(fmt, i, d, items, next, args, radix);
    }
  }

  lemma {:induction false} SpelledLiteral(fmt: string, i: nat, text: string, items: seq<Item>, next: nat, args: Args,
                                          radix: Base)
    requires AllWellFormed(items) && |items| > 0 && items[0] == Literal(text)
    requires FoundAt(fmt, i, text) && fmt[i + |text|..] == Spell(items[1..])
    ensures Supported(fmt, i)
    ensures Output(fmt, i, next, args, radix) == Render(items, next, args, radix)
    decreases |items|, 0
  {
    hide WellFormed, Supported, Output, Spell;
    SpelledOutput(fmt, i + |text|, items[1..], next, args, radix);
    LiteralOutput(fmt, i, text, next, args, radix);
  }

  lemma {:induction false} SpelledDirective(fmt: string, i: nat, d: Directive, items: seq<Item>, next: nat, args: Args,
                                            radix: Base)
    requires AllWellFormed(items) && |items| > 0 && items[0] == Conversion(d)
    requires FoundAt(fmt, i, SpellItem(Conversion(d))) && fmt[i + |SpellItem(Conversion(d))|..] == Spell(items[1..])
    ensures Supported(fmt, i)
    ensures Output(fmt, i, next, args, radix) == Render(items, next, args, radix)
    decreases |items|, 0
  {
    hide WellFormed, Supported, Output, Spell, SpellItem, Meaning, ConversionText, Known;
    SpelledOutput(fmt, i + |SpellItem(items[0])|, items[1..], NextArg(d.conv, Meaning(d, next, args)), args, radix);
    DirectiveOutput(fmt, i, d, next, args, radix);
  }

  lemma KnownOne(d: Directive)
    requires WellFormed(d)
    ensures Known(d.conv) && d.conv !in "bDn"
  {
  }

  /** The same for a whole format, as vsnprintf sees it. */
  lemma FormatOutput(items: seq<Item>, args: Args, radix: Base)
    requires AllWellFormed(items)
    ensures Supported(Spell(items), 0)
    ensures Output(Spell(items), 0, 0, args, radix) == Render(items, 0, args, radix)
  {
    assert Spell(items)[0..] == Spell(items);
    SpelledOutput(Spell(items), 0, items, 0, args, radix);
  }

  /** %d, under any flags, width and precision, prints a text that reads as the int argument. */
  lemma DecimalReadsBack(f: Flags, args: Args, radix: Base)
    requires NoLength(f)
    ensures SignedValue(ReadNumber(ConversionText('d', f, args, radix), 10)) == AsInt(args(f.next).bits)
  {
    hide ReadNumber, NumberText, SignedValue;
    var bits := args(f.next).bits;
    SignedRoundTrip(LayoutOf('d', f, radix), Signed(f, bits));
  }
}
