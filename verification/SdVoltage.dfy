/** The voltage arithmetic of drivers/sdhci/mmc.c: the host's choice among the voltages of the card, and
    the argument of the power-up polls. */
module SdVoltage {
  import opened MachineWords
  import opened SdCard

  lemma {:induction false} BitOfLow(x: nat, b: nat, n: nat)
    requires b < n
    ensures Bit(x % Pow2(n), b) == Bit(x, b)
  {
    LowPow2(x, n);
    if b > 0 {
      BitOfLow(x / 2, b - 1, n - 1);
    }
  }

  lemma NoInquiry(arg: nat, b: nat)
    requires b < 24 && Bit(arg, b)
    ensures !Inquiry(arg)
  {
    hide Bit, Pow2;
    BitOfLow(arg, b, 24);
    BitOfZero(b);
    Pow2Sum(8, 16);
    Pow2Widths();
  }

  /** 2^n - 2^m is made of the bits from m on, below n. */
  lemma {:induction false} BitOfHigh(n: nat, m: nat, b: nat)
    requires m <= n && b < n
    ensures Pow2(m) <= Pow2(n) && Bit(Pow2(n) - Pow2(m), b) == (m <= b)
  {
    if m < n {
      Pow2Below(m, n);
    }
    if m == 0 {
      BitOfOnes(n, b);
    } else if b > 0 {
      BitOfHigh(n - 1, m - 1, b - 1);
      assert (Pow2(n) - Pow2(m)) / 2 == Pow2(n - 1) - Pow2(m - 1);
    }
  }

  /** The highest bit of a number, and the one above it, select that bit alone. */
  lemma {:induction false} AndTop(v: nat, b: nat)
    requires Pow2(b) <= v < Pow2(b + 1)
    ensures Bitwise(And, v, 3 * Pow2(b)) == Pow2(b)
  {
    if b == 0 {
      assert v == 1 && Bitwise(And, 0, 1) == 0;
    } else {
      assert 3 * Pow2(b) / 2 == 3 * Pow2(b - 1);
      AndTop(v / 2, b - 1);
    }
  }

  lemma {:induction false} BitOfShifted(x: nat, n: nat, k: nat)
    ensures Bit(ShiftRight(x, n), k) == Bit(x, n + k)
  {
    if n > 0 {
      BitOfShifted(x / 2, n - 1, k);
    }
  }

  /** A voltage from 2.7 V on is among those of an operating condition. */
  ghost predicate High(ocr: nat) {
    exists b: nat :: 15 <= b < 24 && Bit(ocr, b)
  }

  /** What (ocr & 0xFF8000) != 0 asks for. */
  lemma HighBits(ocr: nat)
    ensures ocr / 0x8000 % 0x200 != 0 <==> High(ocr)
  {
    hide Bit, Pow2, ShiftRight;
    PowersOfVoltage();
    ShiftRightPow2(ocr, 15);
    var v := ocr / 0x8000 % 0x200;
    if v != 0 {
      var k := HighestBit(v);
      BitBound(v, k, 9);
      BitOfLow(ocr / 0x8000, k, 9);
      BitOfShifted(ocr, 15, k);
    }
    forall b: nat | 15 <= b < 24 && Bit(ocr, b)
      ensures v != 0
    {
      BitOfLow(ocr / 0x8000, b - 15, 9);
      BitOfShifted(ocr, 15, b - 15);
      BitOfZero(b - 15);
    }
  }

  lemma PowersOfVoltage()
    ensures Pow2(9) == 0x200 && Pow2(15) == 0x8000
  {
    Pow2Widths();
    assert Pow2(9) == 2 * Pow2(8) && Pow2(16) == 2 * Pow2(15);
  }

  /** A voltage of the defined range that both sides know. */
  predicate Common(window: nat, avail: nat, b: nat) {
    7 <= b < 32 && Bit(window, b) && Bit(avail, b)
  }

  lemma UndefinedBits(b: nat)
    requires b < 32
    ensures Bit(0x7F, b) == (b < 7)
    ensures Bit(TWO32 - 1 - 0x7F, b) == (7 <= b)
  {
    hide Bit, Pow2;
    assert Pow2(7) == 0x80 by {
      Pow2Sum(3, 4);
      assert Pow2(3) == 8 && Pow2(4) == 16 by {
        PowersSmall();
      }
    }
    Pow2Widths();
    BitOfHigh(32, 7, b);
    if b < 7 {
      BitOfOnes(7, b);
    } else if Bit(0x7F, b) {
      BitBound(0x7F, b, 7);
    }
  }

  lemma PowersSmall()
    ensures Pow2(3) == 8 && Pow2(4) == 16
  {
  }

  /** Masking out the undefined voltages where there are any, and then the unavailable ones. */
  lemma CommonBits(window: nat, avail: nat, safe: nat, b: nat)
    requires window < TWO32
    requires safe == if Bitwise(And, window, 0x7F) != 0 then Bitwise(And, window, TWO32 - 1 - 0x7F) else window
    ensures Bit(Bitwise(And, safe, avail), b) == Common(window, avail, b)
  {
    hide Bit, Bitwise, Pow2;
    BitOfBitwise(And, safe, avail, b);
    BitOfBitwise(And, window, TWO32 - 1 - 0x7F, b);
    BitOfBitwise(And, window, 0x7F, b);
    BitOfZero(b);
    Pow2Widths();
    if Bit(window, b) {
      BitBound(window, b, 32);
      UndefinedBits(b);
    }
  }

  /** mmc_select_voltage: the highest voltage both sides know, or 0 when there is none. */
  method SelectVoltage(window: nat, avail: nat) returns (ocr: nat)
    requires window < TWO32 && avail < TWO32
    ensures ocr == 0 <==> forall b: nat :: !Common(window, avail, b)
    ensures ocr != 0 ==>
              exists b: nat ::
                && Common(window, avail, b) && ocr == Pow2(b) && Bit(ocr, b)
                && forall k: nat :: b < k ==> !Common(window, avail, k)
  {
    hide Bit, Bitwise, Pow2, Common;
    ocr := window;
    if Bitwise(And, ocr, 0x7F) != 0 {
      ocr := Bitwise(And, ocr, TWO32 - 1 - 0x7F);
    }
    ghost var safe := ocr;
    ocr := Bitwise(And, ocr, avail);
    forall b: nat
      ensures Bit(ocr, b) == Common(window, avail, b)
    {
      CommonBits(window, avail, safe, b);
    }
    if ocr == 0 {
      forall b: nat
        ensures !Bit(ocr, b)
      {
        BitOfZero(b);
      }
      return 0;
    }
    var bit := HighestBit(ocr);
    forall k: nat | bit < k
      ensures !Bit(ocr, k)
    {
      if Bit(ocr, k) {
        BitBound(ocr, k, bit + 1);
      }
    }
    AndTop(ocr, bit);
    BitOfPow2(bit, bit);
    ocr := Bitwise(And, ocr, 3 * Pow2(bit));
  }

  /** The argument of the power-up polls: the voltage, high capacity, and 1.8 V when a UHS mode is
      wanted. */
  method OpCondArgument(voltage: nat, high: bool, uhs: bool, ghost b: nat) returns (ocr: nat)
    requires b < 24 && Bit(voltage, b)
    ensures Bit(ocr, b) && Bit(ocr, 30) == (high || Bit(voltage, 30)) && Bit(ocr, 24) == uhs
  {
    hide Bit, Bitwise, Pow2;
    ocr := voltage;
    if high {
      ocr := Bitwise(Or, voltage, Pow2(HCS));
      BitOfBitwise(Or, voltage, Pow2(HCS), b);
      BitOfBitwise(Or, voltage, Pow2(HCS), HCS);
      BitOfPow2(HCS, HCS);
    }
    ghost var was := ocr;
    if uhs {
      ocr := Bitwise(Or, ocr, Pow2(S18R));
      BitOfBitwise(Or, was, Pow2(S18R), b);
      BitOfBitwise(Or, was, Pow2(S18R), HCS);
      BitOfBitwise(Or, was, Pow2(S18R), S18R);
      BitOfPow2(S18R, S18R);
      BitOfPow2(S18R, HCS);
    } else {
      Pow2Below(S18R, 32);
      ocr := Bitwise(And, ocr, Pow2(32) - 1 - Pow2(S18R));
      BitOfBitwise(And, was, Pow2(32) - 1 - Pow2(S18R), b);
      BitOfBitwise(And, was, Pow2(32) - 1 - Pow2(S18R), HCS);
      BitOfBitwise(And, was, Pow2(32) - 1 - Pow2(S18R), S18R);
      BitOfHole(32, S18R, b);
      BitOfHole(32, S18R, HCS);
      BitOfHole(32, S18R, S18R);
    }
  }
}
