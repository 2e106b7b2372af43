/** The SD initialisation, read and erase paths of drivers/sdhci/mmc.c against the card of SdCard, over a
    bus that may lose commands and answers: which losses the driver copes with, and which make it send
    what the card does not expect. */
module SdProtocol {
  import opened MachineWords
  import opened Options
  import opened SdCard
  import opened SdCommands
  import opened SdVoltage

  const OCR_AVAIL: nat := 0x30_0080

  /** Arguments of CMD6: read the functions, and set the driver strength to type A. */
  const READ_ARG: nat := 0xFF_FFF0
  const STRENGTH_ARG: nat := 0x80FF_F1FF

  /** mode 1, group 1: 0x80FFFFF0 with the function in the low nibble. */
  function SpeedArg(function1: nat): nat {
    0x80FF_FFF0 + function1
  }

  /** What the switch commands of the driver ask of a card. */
  lemma SwitchArguments(c: Card, f: nat)
    requires f < 15
    ensures AfterSwitch(c, READ_ARG) == c
    ensures AfterSwitch(c, STRENGTH_ARG) == c.(driver := if 1 in c.info.drivers then 1 else c.driver)
    ensures AfterSwitch(c, SpeedArg(f)) == c.(speed := if f in c.info.functions then f else c.speed)
    ensures FunctionAnswer(c, SpeedArg(f)) == if f in c.info.functions then f else 15
    ensures SpeedArg(1) == HIGH_SPEED_ARG
  {
    hide AfterSwitch, FunctionAnswer;
    SwitchFields(READ_ARG, 0, 15, false);
    SwitchFields(STRENGTH_ARG, 15, 1, true);
    SwitchFields(SpeedArg(f), f, 15, true);
    SwitchTo(c, READ_ARG, 0, 15, false);
    SwitchTo(c, STRENGTH_ARG, 15, 1, true);
    SwitchTo(c, SpeedArg(f), f, 15, true);
  }

  lemma SwitchFields(arg: nat, f: nat, strength: nat, mode: bool)
    requires f < 16 && strength < 16
    requires arg == (if mode then 0x8000_0000 else 0) + 0xFF_F000 + strength * 0x100 + 0xF0 + f
    ensures arg % 16 == f && arg / 0x100 % 16 == strength && (arg / 0x8000_0000 % 2 == 1 <==> mode)
  {
  }

  lemma SwitchTo(c: Card, arg: nat, f: nat, strength: nat, mode: bool)
    requires arg % 16 == f && arg / 0x100 % 16 == strength && (arg / 0x8000_0000 % 2 == 1 <==> mode)
    ensures FunctionAnswer(c, arg) == if f == 15 then c.speed else if f in c.info.functions then f else 15
    ensures AfterSwitch(c, arg) ==
            if !mode then c
            else c.(speed := if f < 15 && f in c.info.functions then f else c.speed,
                    driver := if strength < 15 && strength in c.info.drivers then strength else c.driver)
  {
  }

  /** How a driver function ends: 0, a negative result, or never (a failed assertion, or polls without
      end). */
  datatype Ending = Done | Failed | Hung

  datatype Timing = Legacy | HighSpeed | Uhs(function1: nat)

  /** ios.timing is the one the card uses. */
  predicate Fits(t: Timing, speed: nat) {
    match t
    case Legacy => speed == 0
    case HighSpeed => speed == 1
    case Uhs(f) => speed == f
  }

  lemma WindowBound(c: Card)
    requires WellFormed(c)
    ensures c.info.window < TWO32
  {
  }

  /** The card can be run from 3.2 to 3.3 or from 3.3 to 3.4 V (bits 20 and 21 of its window), which are
      the voltages from 2.7 V on that the board supplies. */
  predicate Powered(window: nat) {
    Bit(window, 20) || Bit(window, 21)
  }

  lemma AvailBits(b: nat)
    requires 15 <= b
    ensures Bit(OCR_AVAIL, b) <==> b == 20 || b == 21
  {
    hide Pow2, ShiftRight, Bit;
    PowersOfVoltage();
    ShiftRightPow2(OCR_AVAIL, 15);
    BitOfShifted(OCR_AVAIL, 15, b - 15);
    SixBits();
    if Bit(0x60, b - 15) {
      BitBound(0x60, b - 15, 9);
    }
  }

  lemma PoweredShares(window: nat)
    ensures Powered(window) <==> exists b: nat :: 15 <= b && Common(window, OCR_AVAIL, b)
  {
    hide Bit;
    AvailBits(20);
    AvailBits(21);
    if Bit(window, 20) {
      assert Common(window, OCR_AVAIL, 20);
    }
    if Bit(window, 21) {
      assert Common(window, OCR_AVAIL, 21);
    }
    forall b: nat | 15 <= b && Common(window, OCR_AVAIL, b)
      ensures Powered(window)
    {
      AvailBits(b);
    }
  }

  lemma SixBits()
    ensures forall k: nat | k < 9 :: Bit(0x60, k) <==> k == 5 || k == 6
  {
    forall k: nat | k < 9
      ensures Bit(0x60, k) <==> k == 5 || k == 6
    {
      match k
      case 0 => assert !Bit(0x60, 0);
      case 1 => assert !Bit(0x60, 1);
      case 2 => assert !Bit(0x60, 2);
      case 3 => assert !Bit(0x60, 3);
      case 4 => assert !Bit(0x60, 4);
      case 5 => assert Bit(0x60, 5);
      case 6 => assert Bit(0x60, 6);
      case 7 => assert !Bit(0x60, 7);
      case _ => assert !Bit(0x60, 8);
    }
  }

  lemma LowBits(voltage: nat)
    requires voltage < 0x100_0000
    ensures !Bit(voltage, HCS)
  {
    hide Bit, Pow2;
    Pow2Sum(8, 16);
    Pow2Widths();
    if Bit(voltage, HCS) {
      BitBound(voltage, HCS, 24);
    }
  }

  lemma Selects(voltage: nat, c: Card)
    requires WellFormed(c)
    requires exists b: nat ::
               && Common(c.info.window, OCR_AVAIL, b) && voltage == Pow2(b) && Bit(voltage, b)
               && forall k: nat :: b < k ==> !Common(c.info.window, OCR_AVAIL, k)
    ensures voltage < 0x100_0000 && Compatible(voltage, c.info.window)
    ensures High(voltage) <==> Powered(c.info.window)
  {
    hide Bit, Pow2;
    var b: nat :| Common(c.info.window, OCR_AVAIL, b) && voltage == Pow2(b) && Bit(voltage, b)
                  && forall k: nat :: b < k ==> !Common(c.info.window, OCR_AVAIL, k);
    Pow2Sum(8, 16);
    Pow2Widths();
    BitBound(c.info.window, b, 24);
    Pow2Below(b, 24);
    PoweredShares(c.info.window);
    forall k: nat
      ensures Bit(voltage, k) <==> b == k
    {
      BitOfPow2(b, k);
    }
  }

  lemma AvailHigh()
    ensures High(OCR_AVAIL)
  {
    AvailBits(20);
  }

  // ---------- modes ----------

  function Shared(a: Modes, b: Modes): Modes {
    Modes(a.sdr12 && b.sdr12, a.sdr25 && b.sdr25, a.sdr50 && b.sdr50, a.sdr104 && b.sdr104, a.ddr50 && b.ddr50)
  }

  const NO_MODES: Modes := Modes(false, false, false, false, false)

  const SDR50: nat := 2
  const SDR104: nat := 3
  const DDR50: nat := 4

  /** sd_update_bus_speed_mode: the function chosen among the shared modes. */
  function BestSpeed(m: Modes): nat {
    if m.sdr104 then SDR104 else if m.ddr50 then DDR50 else if m.sdr50 then SDR50 else if m.sdr25 then 1 else 0
  }

  // ---------- what a bus may be known for ----------

  /** Every ACMD51 is lost on its way to the card. */
  ghost predicate DropsScr(fate: (nat, Command) -> Outcome) {
    forall n: nat, c: Command :: c.app && c.index == 51 ==> fate(n, c) == CommandLost
  }

  /** Every ACMD13 is lost on its way, or the answer to every CMD55 in front of one. */
  ghost predicate DropsStatus(fate: (nat, Command) -> Outcome) {
    || (forall n: nat, c: Command :: c.app && c.index == 13 ==> fate(n, c) == CommandLost)
    || (forall n: nat, c: Command :: !c.app && c.index == 55 && c.announces == 13 ==> fate(n, c) == AnswerLost)
  }

  /** Every answer to the switch to high speed is lost. */
  ghost predicate DropsSpeed(fate: (nat, Command) -> Outcome) {
    forall n: nat :: fate(n, Plain(6, HIGH_SPEED_ARG, 1)) == AnswerLost
  }

  // ---------- the host ----------

  class Host {
    const bus: Bus
    /** host->bus_mode. */
    const modes: Modes
    const force18: bool
    const forceWidth1: bool
    /** What the host sees on the data line while the voltage changes: the card holds it low, and then
        releases it. */
    const holds: bool
    const releases: bool
    /** Power-up polls after which the loop counts as endless. */
    const patience: nat
    /** ios.bus_width, in lines, and ios.timing. */
    var width: nat
    var timing: Timing
    // the card as the host knows it
    var rca: nat
    var csd: Csd
    var scr: Scr
    var highSpeed: bool
    var cardModes: Modes

    constructor (bus: Bus, modes: Modes, force18: bool, forceWidth1: bool, holds: bool, releases: bool, patience: nat)
      ensures this.bus == bus && this.modes == modes && this.force18 == force18
      ensures this.forceWidth1 == forceWidth1 && this.patience == patience
      ensures this.holds == holds && this.releases == releases
      ensures width == 1 && timing == Legacy
    {
      this.bus, this.modes, this.force18, this.forceWidth1, this.patience := bus, modes, force18, forceWidth1, patience;
      this.holds, this.releases := holds, releases;
      width, timing, rca := 1, Legacy, 0;
      csd, scr := Csd(false, false, false), Scr(0, 0, false, false);
      highSpeed, cardModes := false, NO_MODES;
    }

    /** host->bus_mode & SD_MODE_UHS_MASK. */
    predicate WantsUhs() {
      modes.sdr50 || modes.sdr104 || modes.ddr50
    }

    /** The card is selected and idle in the transfer state; it may still expect an application
        command. */
    predicate Steady()
      reads this, bus
    {
      && bus.Valid() && rca == bus.card.rca && csd == bus.card.info.csd
      && bus.card.state == Tran && bus.card.busy == 0
    }

    // ---------- waiting ----------

    /** sd_device_state: status reads until the card is ready for data. A card that expects an
        application command takes the first of them for the wrong one. */
    method DeviceState() returns (r: Ending, state: State)
      requires bus.Valid() && rca == bus.card.rca && Selected(bus.card)
      requires bus.card.app ==> bus.card.state == Tran && bus.card.busy == 0
      modifies bus
      ensures bus.Valid() && Alike(old(bus.card), bus.card) && Selected(bus.card)
      ensures old(bus.log) <= bus.log
      ensures bus.legal == (old(bus.legal) && !old(bus.card.app))
      ensures r != Failed && bus.Lost() == old(bus.Lost()) + (if r == Done then {} else {Elsewhere})
      ensures old(bus.card.state) == Tran && old(bus.card.busy) == 0 ==> bus.card.state == Tran && bus.card.busy == 0
      ensures r == Done ==> !bus.card.app && bus.card.busy == 0 && state == bus.card.state
      ensures r == Done ==> state == Tran || state == old(bus.card.state) == Data
      ensures bus.card.app ==> old(bus.card.app)
      ensures r == Done ==> bus.log != [] && bus.log[|bus.log| - 1] == Entry(Plain(13, rca * TWO16, 0), Delivered)
    {
      hide Next, Legal, Heard, Answer, LossOf, Losses;
      ghost var first, legal := bus.card, bus.legal;
      while true
        invariant bus.Valid() && Alike(first, bus.card) && bus.Lost() == old(bus.Lost()) && old(bus.log) <= bus.log
        invariant bus.card.app ==> bus.card == first && bus.legal == legal
        invariant !bus.card.app ==> bus.legal == (legal && !first.app)
        invariant bus.card.state == first.state || (first.state == Prg && bus.card.state == Tran)
        invariant bus.card.busy <= first.busy
        decreases bus.card.busy, bus.card.app
      {
        StatusRead(bus.card, Plain(13, rca * TWO16, 0));
        var ok, answer, _ := bus.Send(Plain(13, rca * TWO16, 0));
        if !ok {
          return Hung, Tran;
        }
        if answer.ready {
          return Done, answer.state;
        }
      }
    }

    /** The loops that read the state until it is the transfer state: when the card is ready, it is. */
    method AwaitTran() returns (r: Ending)
      requires bus.Valid() && rca == bus.card.rca && (bus.card.state == Tran || bus.card.state == Prg)
      requires bus.card.app ==> bus.card.state == Tran && bus.card.busy == 0
      modifies bus
      ensures bus.Valid() && Alike(old(bus.card), bus.card)
      ensures old(bus.log) <= bus.log
      ensures bus.legal == (old(bus.legal) && !old(bus.card.app))
      ensures r != Failed && bus.Lost() == old(bus.Lost()) + (if r == Done then {} else {Elsewhere})
      ensures old(bus.card.state) == Tran && old(bus.card.busy) == 0 ==> bus.card.state == Tran && bus.card.busy == 0
      ensures r == Done ==> !bus.card.app && bus.card.state == Tran && bus.card.busy == 0
      ensures bus.card.app ==> old(bus.card.app)
      ensures r == Done ==> bus.log != [] && bus.log[|bus.log| - 1] == Entry(Plain(13, rca * TWO16, 0), Delivered)
    {
      var state;
      r, state := DeviceState();
      assert r == Done ==> state == Tran;
    }

    // ---------- registers ----------

    /** ACMD51: when it fails, the buffer is left as it is. */
    method AskScr() returns (buffer: Scr)
      requires Steady() && bus.card.app && ScrRequest !in bus.Lost()
      modifies bus
      ensures old(bus.log) <= bus.log
      ensures Steady() && Alike(old(bus.card), bus.card) && bus.legal == old(bus.legal)
      ensures Adds(old(bus.Lost()), bus.Lost(), {ScrRequest, Elsewhere})
      ensures bus.card.app <==> ScrRequest in bus.Lost()
      ensures ScrRequest !in bus.Lost() && Elsewhere !in bus.Lost() ==> buffer == bus.card.info.scr
      ensures DropsScr(bus.fate) ==> ScrRequest in bus.Lost()
    {
      hide Next, Legal, Heard, Answer, Losses, LossOf;
      Applied(bus.card, Application(51, 0, 1));
      var ok, answer, _ := bus.Send(Application(51, 0, 1));
      buffer :| true;
      if ok {
        buffer := answer.scr;
      }
    }

    /** mmc_app_send_scr. The error of the ACMD51 is not looked at, so the register may come out as
        anything. */
    method SendScr() returns (r: Ending)
      requires Steady() && !bus.card.app && ScrRequest !in bus.Lost()
      modifies bus, this`scr
      ensures old(bus.log) <= bus.log
      ensures Steady() && Alike(old(bus.card), bus.card)
      ensures Adds(old(bus.Lost()), bus.Lost(), {ScrRequest, Elsewhere})
      ensures bus.legal == (old(bus.legal) && ScrRequest !in bus.Lost())
      ensures r != Done ==> Elsewhere in bus.Lost()
      ensures r == Done ==> !bus.card.app
      ensures r == Done && ScrRequest !in bus.Lost() && Elsewhere !in bus.Lost() ==> scr == bus.card.info.scr
      ensures DropsScr(bus.fate) ==> ScrRequest in bus.Lost() || Elsewhere in bus.Lost()
    {
      hide Next, Legal, Heard, Answer, Losses, LossOf, DropsScr;
      Announced(bus.card, Announce(51, rca * TWO16));
      var ok, _, _ := bus.Send(Announce(51, rca * TWO16));
      if !ok {
        return Failed;
      }
      var buffer := AskScr();
      r := AwaitTran();
      scr := buffer;
    }

    /** mmc_read_ssr: every error of mmc_app_sd_status is only reported. */
    method ReadSsr() returns (r: Ending)
      requires Steady() && !bus.card.app && StatusRequest !in bus.Lost()
      modifies bus
      ensures old(bus.log) <= bus.log
      ensures Steady() && Alike(old(bus.card), bus.card) && bus.legal == old(bus.legal)
      ensures Adds(old(bus.Lost()), bus.Lost(), {StatusRequest, Elsewhere})
      ensures bus.card.app <==> StatusRequest in bus.Lost()
      ensures r == Done || (r == Hung && Elsewhere in bus.Lost() && !bus.card.app)
      ensures DropsStatus(bus.fate) && csd.application ==> StatusRequest in bus.Lost() || Elsewhere in bus.Lost()
    {
      hide Next, Legal, Heard, Answer, Losses;
      if !csd.application {
        return Done;
      }
      Announced(bus.card, Announce(13, rca * TWO16));
      var ok, answer, data := bus.Send(Announce(13, rca * TWO16));
      if !ok {
        return Done;
      }
      Applied(bus.card, Application(13, 0, 1));
      ok, answer, data := bus.Send(Application(13, 0, 1));
      if !ok {
        return Done;
      }
      r := AwaitTran();
    }

    /** mmc_sd_switch; `function1` is the answer for group 1. */
    method SdSwitch(arg: nat) returns (r: Ending, function1: nat, supported: Modes)
      requires Steady() && csd.switch && (bus.card.app ==> arg % 4 == 0)
      modifies bus
      ensures old(bus.log) <= bus.log
      ensures Steady() && SameCard(old(bus.card), bus.card)
      ensures bus.legal == (old(bus.legal) && !old(bus.card.app))
      ensures Adds(old(bus.Lost()), bus.Lost(), {SpeedAnswer, Elsewhere})
      ensures r == Done ==> !old(bus.card.app) && !bus.card.app && bus.Lost() == old(bus.Lost())
      ensures r == Done ==> function1 == FunctionAnswer(old(bus.card), arg) && supported == bus.card.info.modes
      ensures bus.card.speed == old(bus.card.speed) || bus.card.speed == AfterSwitch(old(bus.card), arg).speed
      ensures r == Done ==> bus.card.speed == AfterSwitch(old(bus.card), arg).speed
      ensures bus.card.driver == old(bus.card.driver) || bus.card.driver == AfterSwitch(old(bus.card), arg).driver
      ensures r == Done ==> bus.card.driver == AfterSwitch(old(bus.card), arg).driver
      ensures !old(bus.card.app) ==> bus.card.width == old(bus.card.width) && !bus.card.app
      ensures old(bus.card.app) ==> bus.card.speed == old(bus.card.speed) && bus.card.driver == old(bus.card.driver)
      ensures !old(bus.card.app) && r != Done ==>
                Elsewhere in bus.Lost() || (arg == HIGH_SPEED_ARG && SpeedAnswer in bus.Lost())
      ensures !old(bus.card.app) && r == Failed && arg == HIGH_SPEED_ARG && SpeedAnswer !in old(bus.Lost()) ==>
                bus.card.speed == if SpeedAnswer in bus.Lost() then AfterSwitch(old(bus.card), arg).speed
                                  else old(bus.card.speed)
      ensures !old(bus.card.app) && arg == HIGH_SPEED_ARG && DropsSpeed(bus.fate) ==> SpeedAnswer in bus.Lost()
      ensures arg != HIGH_SPEED_ARG ==> SpeedAnswer in bus.Lost() ==> SpeedAnswer in old(bus.Lost())
      ensures r == Hung ==> Elsewhere in bus.Lost()
    {
      hide Next, Legal, Heard, Answer, Losses, AfterSwitch, FunctionAnswer;
      function1, supported := 0, NO_MODES;
      SwitchSent(bus.card, Plain(6, arg, 1));
      var ok, answer, _ := bus.Send(Plain(6, arg, 1));
      if !ok {
        return Failed, 0, NO_MODES;
      }
      r := AwaitTran();
      function1, supported := answer.speed, answer.modes;
    }

    /** A decoded SCR claims version 3 of the specification only along with structure version 2. */
    predicate Spec3()
      reads this
    {
      scr.version == 2 && scr.spec3
    }

    /** The driver goes on to CMD6. */
    predicate Switches()
      reads this
    {
      scr.version >= 1 && csd.switch
    }

    /** mmc_read_switch. */
    method ReadSwitch() returns (r: Ending)
      requires Steady() && !highSpeed
      modifies bus, this`highSpeed, this`cardModes
      ensures old(bus.log) <= bus.log
      ensures Steady() && SameCard(old(bus.card), bus.card) && bus.card.speed == old(bus.card.speed)
      ensures bus.card.driver == old(bus.card.driver)
      ensures bus.legal == (old(bus.legal) && !(old(bus.card.app) && Switches()))
      ensures Adds(old(bus.Lost()), bus.Lost(), {Elsewhere})
      ensures r == Done ==> bus.card.width == old(bus.card.width)
      ensures r == Done ==> bus.card.app == (old(bus.card.app) && !Switches()) && !(old(bus.card.app) && Switches())
      ensures r == Done && Switches() ==>
                highSpeed == (bus.card.info.modes.sdr25 && modes.sdr25)
                && (Spec3() ==> cardModes == bus.card.info.modes)
      ensures r != Done && !old(bus.card.app) ==> Elsewhere in bus.Lost()
      ensures r == Hung ==> Elsewhere in bus.Lost()
    {
      hide Losses, FunctionAnswer, AfterSwitch;
      if scr.version < 1 {
        return Done;
      }
      if !csd.switch {
        return Done;
      }
      SwitchArguments(bus.card, 0);
      var function1, supported;
      r, function1, supported := SdSwitch(READ_ARG);
      if r != Done {
        return;
      }
      if supported.sdr25 {
        highSpeed := modes.sdr25;
      }
      if Spec3() {
        cardModes := supported;
      }
    }

    /** What a lost ACMD51 or ACMD13 does to the commands behind it. */
    predicate Undisturbed()
      reads this, bus
    {
      ScrRequest !in bus.Lost() && !(StatusRequest in bus.Lost() && Switches())
    }

    /** mmc_sd_setup_card. Its commands are legal unless an ACMD51 was lost on its way (a status read
        follows, which the card takes for ACMD13), or the card is left expecting ACMD13 and a CMD6
        follows. */
    method SetupCard() returns (r: Ending)
      requires Steady() && !bus.card.app && !highSpeed
      requires ScrRequest !in bus.Lost() && StatusRequest !in bus.Lost()
      modifies bus, this`scr, this`highSpeed, this`cardModes
      ensures old(bus.log) <= bus.log
      ensures Steady() && SameCard(old(bus.card), bus.card) && bus.card.speed == old(bus.card.speed)
      ensures bus.card.driver == old(bus.card.driver)
      ensures Adds(old(bus.Lost()), bus.Lost(), {ScrRequest, StatusRequest, Elsewhere})
      ensures bus.legal == (old(bus.legal) && Undisturbed())
      ensures r == Done ==>
                bus.card.width == old(bus.card.width) && (bus.card.app <==> StatusRequest in bus.Lost())
                && (bus.card.app ==> !Switches())
      ensures r == Done && Switches() ==>
                highSpeed == (bus.card.info.modes.sdr25 && modes.sdr25)
                && (Spec3() ==> cardModes == bus.card.info.modes)
      ensures r == Hung ==> Elsewhere in bus.Lost()
      ensures DropsScr(bus.fate) ==> ScrRequest in bus.Lost() || Elsewhere in bus.Lost()
      ensures ScrRequest !in bus.Lost() && Elsewhere !in bus.Lost() ==> scr == bus.card.info.scr
      ensures DropsStatus(bus.fate) && csd.application && bus.card.info.scr.structure == 0 ==>
                StatusRequest in bus.Lost() || ScrRequest in bus.Lost() || Elsewhere in bus.Lost()
      ensures r == Failed ==> scr.structure != 0 || StatusRequest in bus.Lost() || Elsewhere in bus.Lost()
    {
      hide Losses, DropsScr, DropsStatus, WellFormed;
      r := SendScr();
      if r != Done {
        return;
      }
      if scr.structure != 0 {
        return Failed;
      }
      r := ReadSsr();
      if r != Done {
        return;
      }
      r := ReadSwitch();
    }

    // ---------- width and speed ----------

    /** mmc_app_set_bus_width and mmc_set_bus_width: the host follows the card. */
    method SetWidth4() returns (r: Ending)
      requires Steady()
      modifies bus, this`width
      ensures old(bus.log) <= bus.log
      ensures Steady() && SameCard(old(bus.card), bus.card) && bus.card.speed == old(bus.card.speed)
      ensures bus.card.driver == old(bus.card.driver)
      ensures bus.legal == old(bus.legal) && Adds(old(bus.Lost()), bus.Lost(), {Elsewhere})
      ensures r == Done ==> width == bus.card.width == 4 && !bus.card.app
      ensures r != Done ==> r == Failed && Elsewhere in bus.Lost() && width == old(width)
    {
      hide Next, Legal, Heard, Answer, Losses, LossOf;
      Announced(bus.card, Announce(6, rca * TWO16));
      var ok, answer, data := bus.Send(Announce(6, rca * TWO16));
      if !ok {
        return Failed;
      }
      Applied(bus.card, Application(6, 2, 0));
      ok, answer, data := bus.Send(Application(6, 2, 0));
      if !ok {
        return Failed;
      }
      width := 4;
      r := Done;
    }

    /** bm_mmc_execute_tuning: the controller says when it has seen enough blocks; for a block that
        never arrives it waits for ever. */
    method ExecuteTuning() returns (r: Ending)
      requires Steady() && !bus.card.app && bus.card.low
      modifies bus
      ensures old(bus.log) <= bus.log
      ensures Steady() && Alike(old(bus.card), bus.card) && !bus.card.app && bus.legal == old(bus.legal)
      ensures r != Failed && bus.Lost() == old(bus.Lost()) + (if r == Done then {} else {Elsewhere})
      ensures r == Done ==> Entry(Plain(19, 0, 0), Delivered) in bus.log
    {
      hide Losses;
      var left, tuning := 1024, true;
      while tuning
        invariant left == 1024 ==> tuning
        invariant old(bus.log) <= bus.log
        invariant left < 1024 ==> Entry(Plain(19, 0, 0), Delivered) in bus.log
        invariant Steady() && Alike(old(bus.card), bus.card) && !bus.card.app && bus.legal == old(bus.legal)
        invariant bus.Lost() == old(bus.Lost()) && 0 <= left
        decreases left, tuning
      {
        if left == 0 {
          break;
        }
        left := left - 1;
        var ok, _, _ := bus.Send(Plain(19, 0, 0));
        if !ok {
          return Hung;
        }
        tuning := *;
      }
      r := Done;
    }

    /** sd_select_driver_type: for SDR104 the card is asked for type A; that it does not have it is only
        reported. */
    method SelectDriverType(speed: nat) returns (r: Ending)
      requires Steady() && !bus.card.app && csd.switch && bus.card.driver == 0
      modifies bus
      ensures old(bus.log) <= bus.log
      ensures Steady() && Alike(old(bus.card), bus.card.(driver := 0)) && !bus.card.app
      ensures bus.legal == old(bus.legal) && Adds(old(bus.Lost()), bus.Lost(), {Elsewhere})
      ensures r == Done ==> bus.card.driver == if speed == 3 && 1 in bus.card.info.drivers then 1 else 0
      ensures r != Done ==> Elsewhere in bus.Lost()
    {
      hide Losses, AfterSwitch, FunctionAnswer;
      r := Done;
      if speed == SDR104 {
        var answer, supported;
        SwitchArguments(bus.card, 0);
        r, answer, supported := SdSwitch(STRENGTH_ARG);
      }
    }

    /** sd_set_bus_speed_mode: the host takes over the timing only if the card reports the function. */
    method SetSpeed(function1: nat) returns (r: Ending)
      requires Steady() && !bus.card.app && csd.switch && function1 < 15
      requires timing == Legacy && bus.card.speed == 0
      modifies bus, this`timing
      ensures old(bus.log) <= bus.log
      ensures Steady() && SameCard(old(bus.card), bus.card) && !bus.card.app && bus.card.width == old(bus.card.width)
      ensures bus.card.driver == old(bus.card.driver)
      ensures bus.legal == old(bus.legal) && Adds(old(bus.Lost()), bus.Lost(), {SpeedAnswer, Elsewhere})
      ensures r == Done ==> Fits(timing, bus.card.speed) && (timing == Legacy || timing == Uhs(function1))
      ensures r == Done ==>
                if function1 in bus.card.info.functions then timing == Uhs(function1) && bus.card.speed == function1
                else timing == Legacy && bus.card.speed == 0
      ensures r != Done ==> SpeedAnswer in bus.Lost() || Elsewhere in bus.Lost()
      ensures r == Hung ==> Elsewhere in bus.Lost()
    {
      hide Losses, AfterSwitch, FunctionAnswer;
      SwitchArguments(bus.card, function1);
      var answer, supported;
      r, answer, supported := SdSwitch(SpeedArg(function1));
      if r == Done && answer == function1 {
        timing := Uhs(function1);
      }
    }

    /** The card was asked for function f: both sides are on it, tuned if it is one of the fast three, or
        the card does not know it and both are where they were. */
    predicate Asked(f: nat)
      reads this, bus
    {
      if f in bus.card.info.functions then
        && timing == Uhs(f) && bus.card.speed == f
        && (f in {2, 3, 4} ==> Entry(Plain(19, 0, 0), Delivered) in bus.log)
      else timing == Legacy && bus.card.speed == 0
    }

    /** Of the modes both sides have, SDR104 is asked for before DDR50, SDR50, SDR25 and SDR12. */
    predicate UhsReached(m: Modes)
      reads this, bus
    {
      if modes.sdr104 && m.sdr104 then Asked(3)
      else if modes.ddr50 && m.ddr50 then Asked(4)
      else if modes.sdr50 && m.sdr50 then Asked(2)
      else if modes.sdr25 && m.sdr25 then Asked(1)
      else modes.sdr12 && m.sdr12 && Asked(0)
    }

    /** Driver type A (1) for SDR104, if the card has it, and else the default type B (0). */
    function Strength(m: Modes): nat
      reads bus
    {
      if modes.sdr104 && m.sdr104 && 1 in bus.card.info.drivers then 1 else 0
    }

    /** No mode is known to both sides. */
    predicate NothingShared(m: Modes) {
      && !(modes.sdr12 && m.sdr12) && !(modes.sdr25 && m.sdr25) && !(modes.sdr50 && m.sdr50)
      && !(modes.sdr104 && m.sdr104) && !(modes.ddr50 && m.ddr50)
    }

    /** mmc_sd_init_uhs_card. */
    method InitUhsCard() returns (r: Ending)
      requires Steady() && bus.card.low && (bus.card.app ==> !Switches())
      requires width == bus.card.width && timing == Legacy && bus.card.speed == bus.card.driver == 0
      modifies bus, this`width, this`timing
      ensures old(bus.log) <= bus.log
      ensures Steady() && SameCard(old(bus.card), bus.card) && bus.legal == old(bus.legal)
      ensures Adds(old(bus.Lost()), bus.Lost(), {SpeedAnswer, Elsewhere})
      ensures r == Done ==> width == bus.card.width && Fits(timing, bus.card.speed)
      ensures r == Done && Spec3() && csd.switch ==>
                width == 4 && !bus.card.app && UhsReached(cardModes) && bus.card.driver == Strength(cardModes)
      ensures r == Done && !(Spec3() && csd.switch) ==>
                bus.card == old(bus.card) && width == old(width) && timing == old(timing)
      ensures r == Hung ==> Elsewhere in bus.Lost()
      ensures r == Failed && bus.Lost() == {} ==> Spec3() && csd.switch && NothingShared(cardModes)
    {
      hide WellFormed, Losses, AfterSwitch, FunctionAnswer;
      if !Spec3() {
        return Done;
      }
      if !csd.switch {
        return Done;
      }
      r := SetWidth4();
      if r != Done {
        return;
      }
      var shared := Shared(modes, cardModes);
      if shared == NO_MODES {
        return Failed;
      }
      var speed := BestSpeed(shared);
      r := SelectDriverType(speed);
      if r != Done {
        return;
      }
      r := SetSpeed(speed);
      if r != Done {
        return;
      }
      if timing == Uhs(SDR50) || timing == Uhs(DDR50) || timing == Uhs(SDR104) {
        r := ExecuteTuning();
      }
    }

    /** mmc_sd_switch_hs; a negative result is not looked at by its caller. */
    method SwitchHs() returns (r: Ending, switched: bool)
      requires Steady() && (bus.card.app ==> !Switches()) && SpeedAnswer !in bus.Lost()
      requires bus.card.speed == bus.card.driver == 0
      modifies bus
      ensures old(bus.log) <= bus.log
      ensures Steady() && SameCard(old(bus.card), bus.card) && bus.legal == old(bus.legal)
      ensures bus.card.width == old(bus.card.width) && bus.card.app == old(bus.card.app)
      ensures bus.card.driver == 0
      ensures Adds(old(bus.Lost()), bus.Lost(), {SpeedAnswer, Elsewhere})
      ensures r == Hung ==> Elsewhere in bus.Lost()
      ensures switched ==> r == Done
      ensures r != Hung ==>
                bus.card.speed ==
                if (switched || SpeedAnswer in bus.Lost()) && 1 in bus.card.info.functions then 1 else 0
      ensures switched ==> SpeedAnswer !in bus.Lost() && 1 in bus.card.info.functions
      ensures SpeedAnswer in bus.Lost() ==> Switches() && highSpeed
      ensures DropsSpeed(bus.fate) && !bus.card.app && Switches() && highSpeed ==> SpeedAnswer in bus.Lost()
      ensures Elsewhere !in bus.Lost() && SpeedAnswer !in bus.Lost() ==>
                r == Done && (switched <==> Switches() && highSpeed && 1 in bus.card.info.functions)
    {
      hide Losses, DropsSpeed;
      if scr.version < 1 {
        return Done, false;
      }
      if !csd.switch {
        return Done, false;
      }
      if !highSpeed {
        return Done, false;
      }
      var answer, supported;
      r, answer, supported := SdSwitch(HIGH_SPEED_ARG);
      switched := r == Done && answer == 1;
    }

    /** The 3.3 V branch of mmc_sd_init_card: high speed when there is any, and the wide bus. */
    method InitPlainCard() returns (r: Ending)
      requires Steady() && (bus.card.app ==> !Switches()) && SpeedAnswer !in bus.Lost()
      requires width == bus.card.width && bus.card.speed == bus.card.driver == 0
      modifies bus, this`width, this`timing
      ensures old(bus.log) <= bus.log
      ensures Steady() && SameCard(old(bus.card), bus.card) && bus.legal == old(bus.legal)
      ensures bus.card.driver == 0
      ensures Adds(old(bus.Lost()), bus.Lost(), {SpeedAnswer, Elsewhere})
      ensures r == Done ==>
                width == bus.card.width && bus.card.app == (old(bus.card.app) && !scr.wide)
                && (Fits(timing, bus.card.speed) <==> !(SpeedAnswer in bus.Lost() && 1 in bus.card.info.functions))
      ensures r == Hung ==> Elsewhere in bus.Lost()
      ensures r == Failed ==> forceWidth1 || Elsewhere in bus.Lost()
      ensures SpeedAnswer in bus.Lost() ==> Switches() && highSpeed
      ensures r == Done && DropsSpeed(bus.fate) && !old(bus.card.app) && Switches() && highSpeed ==>
                SpeedAnswer in bus.Lost()
      ensures r == Done ==> width == (if scr.wide then 4 else old(width)) && !forceWidth1
      ensures r == Done && Elsewhere !in bus.Lost() && SpeedAnswer !in bus.Lost() ==>
                timing == if Switches() && highSpeed && 1 in bus.card.info.functions then HighSpeed else Legacy
    {
      hide WellFormed, Losses, DropsSpeed;
      var switched;
      r, switched := SwitchHs();
      if r == Hung {
        return;
      }
      timing := if switched then HighSpeed else Legacy;
      if scr.wide && !forceWidth1 {
        r := SetWidth4();
        if r != Done {
          return Failed;
        }
      } else if forceWidth1 {
        return Failed;
      }
      r := Done;
    }

    // ---------- power-up and identification ----------

    /** mmc_go_idle, whose error nobody looks at: behind power-up the card is idle in any case. */
    method GoIdle()
      requires bus.Valid() && PoweredUp(bus.card)
      modifies bus
      ensures old(bus.log) <= bus.log
      ensures |old(bus.log)| < |bus.log| && bus.log[|old(bus.log)|].cmd == Plain(0, 0, 0)
      ensures bus.Valid() && PoweredUp(bus.card) && SameCard(old(bus.card), bus.card)
      ensures bus.legal == old(bus.legal) && Adds(old(bus.Lost()), bus.Lost(), {Elsewhere})
    {
      hide Losses;
      var _, _, _ := bus.Send(Plain(0, 0, 0));
    }

    /** mmc_send_if_cond. */
    method SendIfCond(ocr: nat) returns (r: Ending)
      requires bus.Valid() && PoweredUp(bus.card)
      modifies bus
      ensures old(bus.log) <= bus.log
      ensures bus.Valid() && PoweredUp(bus.card) && SameCard(old(bus.card), bus.card)
      ensures bus.legal == old(bus.legal) && Adds(old(bus.Lost()), bus.Lost(), {Elsewhere})
      ensures r == Done || (r == Failed && (Elsewhere in bus.Lost() || !High(ocr)))
      ensures r == Done ==> High(ocr)
    {
      hide Losses, High;
      HighBits(ocr);
      var ok, answer, _ := bus.Send(Plain(8, (if ocr / 0x8000 % 0x200 != 0 then 0x100 else 0) + 0xAA, 0));
      if !ok {
        return Failed;
      }
      if answer.pattern != 0xAA {
        return Failed;
      }
      r := Done;
    }

    /** CMD55 and ACMD41 for a card that is not addressed yet. */
    method OpCond(ocr: nat) returns (ok: bool, answer: Response)
      requires bus.Valid() && Polled(bus.card)
      requires Inquiry(ocr) || Compatible(ocr, bus.card.info.window)
      modifies bus
      ensures old(bus.log) <= bus.log
      ensures bus.Valid() && SameCard(old(bus.card), bus.card)
      ensures bus.legal == old(bus.legal) && bus.Lost() == old(bus.Lost()) + (if ok then {} else {Elsewhere})
      ensures bus.card.state == Idle || bus.card.state == Ready
      ensures ok && bus.card.state == Idle ==>
                && Polled(bus.card) && answer == Ocr(bus.card.info.window, false, false, false)
                && bus.card.polls == old(bus.card.polls) - (if Inquiry(ocr) || !Bit(ocr, HCS) then 0 else 1)
      ensures ok && bus.card.state != Idle ==>
                && Bit(ocr, HCS) && !Inquiry(ocr) && answer == Ocr(bus.card.info.window, true, true, bus.card.accepted)
                && bus.card == old(bus.card).(state := Ready, eraseFrom := None, eraseTo := None, accepted :=
                                              bus.card.info.uhs && !bus.card.low && Bit(ocr, S18R))
    {
      hide Bit, Inquiry, Compatible, Losses, LossOf, Next, Legal, Heard, Answer;
      answer := Other;
      var data;
      InquiryAnnounced(bus.card, Announce(41, 0));
      ok, answer, data := bus.Send(Announce(41, 0));
      if ok {
        OpCondSent(bus.card, Application(41, ocr, 0));
        ok, answer, data := bus.Send(Application(41, ocr, 0));
      }
    }

    /** mmc_send_app_op_cond: once to ask for the window, or until the card has powered up. A card asked
        without the high-capacity bit never does. */
    method SendAppOpCond(ocr: nat) returns (r: Ending, rocr: Response)
      requires bus.Valid() && PoweredUp(bus.card)
      requires ocr == 0 || (!Inquiry(ocr) && Compatible(ocr, bus.card.info.window))
      modifies bus
      ensures old(bus.log) <= bus.log
      ensures bus.Valid() && SameCard(old(bus.card), bus.card)
      ensures bus.legal == old(bus.legal) && Adds(old(bus.Lost()), bus.Lost(), {Elsewhere})
      ensures r == Done && ocr == 0 ==> PoweredUp(bus.card) && rocr == Ocr(bus.card.info.window, false, false, false)
      ensures r == Done && ocr != 0 ==>
                && bus.card.state == Ready && !bus.card.app && bus.card.busy == 0 && Bit(ocr, HCS)
                && bus.card.width == 1 && bus.card.speed == bus.card.driver == 0
                && bus.card.accepted == (bus.card.info.uhs && !bus.card.low && Bit(ocr, S18R))
                && rocr == Ocr(bus.card.info.window, true, true, bus.card.accepted)
      ensures bus.card.state == Idle || bus.card.state == Ready
      ensures r == Failed ==> Elsewhere in bus.Lost()
      ensures r == Hung ==> ocr != 0 && (!Bit(ocr, HCS) || patience < bus.card.info.powerUp)
    {
      hide Bit, Compatible, Losses;
      var round := 0;
      while true
        invariant bus.Valid() && SameCard(old(bus.card), bus.card) && Polled(bus.card) && old(bus.log) <= bus.log
        invariant 0 <= round <= patience && (ocr == 0 ==> round == 0)
        invariant bus.legal == old(bus.legal) && bus.Lost() == old(bus.Lost())
        invariant bus.card.polls == bus.card.info.powerUp - (if Bit(ocr, HCS) then round else 0)
        decreases patience - round
      {
        var ok;
        ok, rocr := OpCond(ocr);
        if !ok {
          return Failed, rocr;
        }
        if ocr == 0 {
          break;
        }
        if rocr.poweredUp && rocr.ccs {
          break;
        }
        if round == patience {
          return Hung, rocr;
        }
        round := round + 1;
      }
      r := Done;
    }

    /** mmc_set_signal_voltage: what the host sees on the data line may stop it half-way. */
    method SetSignalVoltage() returns (r: Ending)
      requires bus.Valid() && bus.card.state == Ready && bus.card.accepted && !bus.card.low && !bus.card.app
      modifies bus
      ensures old(bus.log) <= bus.log
      ensures bus.Valid()
      ensures bus.card in {old(bus.card), old(bus.card).(low := true, eraseFrom := None, eraseTo := None)}
      ensures bus.legal == old(bus.legal) && Adds(old(bus.Lost()), bus.Lost(), {Elsewhere})
      ensures r == Done ==> bus.card.low && holds && releases
      ensures r == Failed ==> Elsewhere in bus.Lost() || !holds || !releases
      ensures r != Hung
    {
      hide Losses;
      var ok, _, _ := bus.Send(Plain(11, 0, 0));
      if !ok {
        return Failed;
      }
      if !holds {
        return Failed;
      }
      r := if releases then Done else Failed;
    }

    /** A card and a board on which the 3.3 V path is taken to its end. */
    predicate Ordinary(info: Info) {
      !info.uhs && info.csd.known && !force18 && info.powerUp <= patience
    }

    /** The first half of mmc_sd_get_cid: reset, and the polls for the voltage, high capacity (unless
        CMD8 has failed) and 1.8 V. */
    method PowerUp(voltage: nat) returns (r: Ending, rocr: Response)
      requires bus.Valid() && PoweredUp(bus.card) && !bus.card.low
      requires voltage < 0x100_0000 && Compatible(voltage, bus.card.info.window)
      modifies bus
      ensures old(bus.log) <= bus.log
      ensures |old(bus.log)| < |bus.log| && bus.log[|old(bus.log)|].cmd == Plain(0, 0, 0)
      ensures bus.Valid() && SameCard(old(bus.card), bus.card)
      ensures bus.legal == old(bus.legal) && Adds(old(bus.Lost()), bus.Lost(), {Elsewhere})
      ensures r == Done ==>
                && bus.card.state == Ready && !bus.card.app && bus.card.busy == 0
                && bus.card.width == 1 && bus.card.speed == bus.card.driver == 0
                && bus.card.accepted == (bus.card.info.uhs && WantsUhs())
                && rocr == Ocr(bus.card.info.window, true, true, bus.card.accepted)
      ensures bus.card.state == Idle || bus.card.state == Ready
      ensures r == Failed ==> Elsewhere in bus.Lost()
      ensures r == Hung && bus.card.info.powerUp <= patience && High(voltage) ==> Elsewhere in bus.Lost()
      ensures r == Done ==> High(voltage)
    {
      hide Bit, Losses, High;
      ghost var b: nat :| b < 24 && Bit(voltage, b) && Bit(bus.card.info.window, b);
      GoIdle();
      r := SendIfCond(voltage);
      var ocr := OpCondArgument(voltage, r == Done, WantsUhs(), b);
      NoInquiry(ocr, b);
      LowBits(voltage);
      r, rocr := SendAppOpCond(ocr);
    }

    /** mmc_sd_get_cid. */
    method GetCid(voltage: nat) returns (r: Ending, rocr: Response)
      requires bus.Valid() && PoweredUp(bus.card) && !bus.card.low
      requires voltage < 0x100_0000 && Compatible(voltage, bus.card.info.window)
      modifies bus
      ensures old(bus.log) <= bus.log
      ensures bus.Valid() && bus.card.info == old(bus.card.info) && bus.card.blocks == old(bus.card.blocks)
      ensures bus.legal == old(bus.legal) && Adds(old(bus.Lost()), bus.Lost(), {Elsewhere})
      ensures r == Done ==>
                && bus.card.state == Ident && !bus.card.app && bus.card.busy == 0
                && bus.card.width == 1 && bus.card.speed == bus.card.driver == 0
                && rocr.Ocr? && bus.card.low == rocr.s18a
      ensures bus.card.state != Tran
      ensures r == Done && rocr.s18a ==> bus.card.info.uhs && WantsUhs()
      ensures r == Done ==> (rocr.s18a <==> bus.card.info.uhs && WantsUhs()) && (!rocr.s18a ==> !force18)
      ensures r == Failed ==>
                || Elsewhere in bus.Lost()
                || (if bus.card.info.uhs && WantsUhs() then !holds || !releases else force18)
      ensures r == Failed && Ordinary(bus.card.info) ==> Elsewhere in bus.Lost()
      ensures r == Hung && bus.card.info.powerUp <= patience && High(voltage) ==> Elsewhere in bus.Lost()
      ensures r == Done ==> High(voltage)
    {
      hide High, Losses, LossOf, Next, Legal, Heard, Answer, Compatible;
      r, rocr := PowerUp(voltage);
      if r != Done {
        return;
      }
      if rocr.ccs && rocr.s18a {
        r := SetSignalVoltage();
        if r != Done {
          return;
        }
      } else if force18 {
        return Failed, rocr;
      }
      IdentitySent(bus.card, Plain(2, 0, 0));
      var ok, _, _ := bus.Send(Plain(2, 0, 0));
      r := if ok then Done else Failed;
    }

    /** CMD3 and CMD9: the card gets an address and gives its CSD. */
    method Address() returns (r: Ending)
      requires bus.Valid() && bus.card.state == Ident && !bus.card.app && bus.card.busy == 0
      modifies bus, this`rca, this`csd
      ensures old(bus.log) <= bus.log
      ensures bus.Valid() && Alike(old(bus.card), bus.card.(rca := old(bus.card).rca))
      ensures bus.legal == old(bus.legal) && Adds(old(bus.Lost()), bus.Lost(), {Elsewhere})
      ensures r == Done ==>
                && bus.card.state == Stby && !bus.card.app && bus.card.busy == 0
                && rca == bus.card.rca && csd == bus.card.info.csd && csd.known
      ensures r != Done ==> r == Failed && (Elsewhere in bus.Lost() || !bus.card.info.csd.known)
    {
      hide Losses, LossOf, Next, Legal, Heard, Answer;
      IdentitySent(bus.card, Plain(3, 0, 0));
      var ok, answer, data := bus.Send(Plain(3, 0, 0));
      if !ok {
        return Failed;
      }
      rca := answer.rca;
      IdentitySent(bus.card, Plain(9, rca * TWO16, 0));
      ok, answer, data := bus.Send(Plain(9, rca * TWO16, 0));
      if !ok {
        return Failed;
      }
      csd := answer.csd;
      r := if csd.known then Done else Failed;
    }

    /** From CMD3 to CMD7: the card gets an address and is selected. */
    method Identify() returns (r: Ending)
      requires bus.Valid() && bus.card.state == Ident && !bus.card.app && bus.card.busy == 0
      modifies bus, this`rca, this`csd
      ensures old(bus.log) <= bus.log
      ensures bus.Valid() && SameCard(old(bus.card), bus.card)
      ensures bus.legal == old(bus.legal) && Adds(old(bus.Lost()), bus.Lost(), {Elsewhere})
      ensures r == Done ==>
                && Steady() && !bus.card.app && csd.known
                && bus.card.width == old(bus.card.width) && bus.card.speed == old(bus.card.speed)
                && bus.card.driver == old(bus.card.driver)
      ensures r != Done ==> Elsewhere in bus.Lost() || (r == Failed && !bus.card.info.csd.known)
      ensures r == Done ==> bus.log != [] && bus.log[|bus.log| - 1] == Entry(Plain(13, rca * TWO16, 0), Delivered)
    {
      hide Losses, LossOf, Next, Legal, Heard, Answer;
      r := Address();
      if r != Done {
        return;
      }
      IdentitySent(bus.card, Plain(7, rca * TWO16, 0));
      var ok, _, _ := bus.Send(Plain(7, rca * TWO16, 0));
      if !ok {
        return Failed;
      }
      r := AwaitTran();
    }

    /** The card is still waiting for ACMD13 when the scan succeeds: no CMD6 was sent behind the lost one,
        and no bus width command either. */
    predicate Waits()
      reads this, bus
    {
      StatusRequest in bus.Lost() && (bus.card.low || !scr.wide)
    }

    /** What a successful scan has chosen. At 1.8 V four lines and the fastest mode both sides have, if the
        card is of version 3 and can switch; else four lines if the card says so, and high speed if
        both sides have it (the answer to the switch not being lost). */
    predicate Chosen()
      reads this, bus
    {
      if bus.card.low then
        if scr.version == 2 && scr.spec3 && csd.switch then
          width == 4 && UhsReached(bus.card.info.modes) && bus.card.driver == Strength(bus.card.info.modes)
        else width == 1 && timing == Legacy && bus.card.driver == 0
      else
        && bus.card.driver == 0 && width == (if scr.wide then 4 else 1) && !forceWidth1
        && (Elsewhere !in bus.Lost() && SpeedAnswer !in bus.Lost() ==>
              timing ==
              if scr.version >= 1 && csd.switch && modes.sdr25 && bus.card.info.modes.sdr25
                 && 1 in bus.card.info.functions
              then HighSpeed else Legacy)
    }

    /** How the first scan ends when it succeeds: the card is selected and both sides use the same lines.
        They also agree on the timing, unless the answer to the switch to high speed was lost. */
    ghost predicate Initialized()
      reads this, bus
    {
      && Steady() && width == bus.card.width && Chosen()
      && (bus.card.app <==> Waits())
      && (bus.card.app ==> !Switches())
      && (Fits(timing, bus.card.speed) <==>
          bus.card.low || !(SpeedAnswer in bus.Lost() && 1 in bus.card.info.functions))
    }

    /** What a run along the 3.3 V path tells about the losses on the bus, and they about it. */
    ghost predicate Explained(r: Ending)
      reads this, bus
    {
      && (r == Hung ==> Elsewhere in bus.Lost())
      && (DropsScr(bus.fate) ==> ScrRequest in bus.Lost() || Elsewhere in bus.Lost())
      && (ScrRequest !in bus.Lost() && Elsewhere !in bus.Lost() ==>
            && scr == bus.card.info.scr && csd == bus.card.info.csd
            && (DropsStatus(bus.fate) && csd.application && scr.structure == 0 ==> StatusRequest in bus.Lost())
            && (r == Failed ==> forceWidth1 || scr.structure != 0 || StatusRequest in bus.Lost())
            && (r == Done && DropsSpeed(bus.fate) && StatusRequest !in bus.Lost() ==>
                  (SpeedAnswer in bus.Lost() <==> Switches() && modes.sdr25 && bus.card.info.modes.sdr25)))
    }

    /** Why a scan without losses fails behind the identification. */
    predicate Refused()
      reads bus
    {
      || !bus.card.info.csd.known || bus.card.info.scr.structure != 0 || forceWidth1
      || (bus.card.low && NothingShared(bus.card.info.modes))
    }

    /** The end of mmc_sd_init_card: the UHS or the 3.3 V branch. */
    method InitBus(s18a: bool) returns (r: Ending)
      requires Steady() && (bus.card.app <==> StatusRequest in bus.Lost()) && (bus.card.app ==> !Switches())
      requires bus.card.low == s18a && width == bus.card.width == 1
      requires timing == Legacy && bus.card.speed == bus.card.driver == 0
      requires SpeedAnswer !in bus.Lost()
      requires Switches() ==>
                 highSpeed == (bus.card.info.modes.sdr25 && modes.sdr25)
                 && (Spec3() ==> cardModes == bus.card.info.modes)
      modifies bus, this`width, this`timing
      ensures old(bus.log) <= bus.log
      ensures Steady() && SameCard(old(bus.card), bus.card) && bus.legal == old(bus.legal)
      ensures Adds(old(bus.Lost()), bus.Lost(), {SpeedAnswer, Elsewhere})
      ensures r == Done ==> Initialized()
      ensures r == Hung ==> Elsewhere in bus.Lost()
      ensures r == Failed && !s18a ==> forceWidth1 || Elsewhere in bus.Lost()
      ensures r == Failed && s18a && bus.Lost() == {} ==> forceWidth1 || NothingShared(bus.card.info.modes)
      ensures r == Done && !s18a && DropsSpeed(bus.fate) && StatusRequest !in bus.Lost() ==>
                (SpeedAnswer in bus.Lost() <==> Switches() && highSpeed)
    {
      hide WellFormed, Losses, Shared, BestSpeed, DropsSpeed, Host.UhsReached, Host.NothingShared;
      if s18a {
        if forceWidth1 {
          return Failed;
        }
        r := InitUhsCard();
      } else {
        r := InitPlainCard();
      }
    }

    /** mmc_sd_init_card behind the identification. */
    method BringUp(s18a: bool) returns (r: Ending)
      requires bus.Valid() && bus.card.state == Ident && !bus.card.app && bus.card.busy == 0 && !highSpeed
      requires bus.card.low == s18a && width == bus.card.width == 1
      requires timing == Legacy && bus.card.speed == bus.card.driver == 0
      requires bus.Lost() <= {Elsewhere}
      modifies bus, this
      ensures old(bus.log) <= bus.log
      ensures bus.Valid() && SameCard(old(bus.card), bus.card) && old(bus.Lost()) <= bus.Lost()
      ensures bus.legal == (old(bus.legal) && Undisturbed())
      ensures r == Done ==> Initialized()
      ensures r == Hung ==> Elsewhere in bus.Lost()
      ensures r == Failed && bus.Lost() == {} ==> Refused()
      ensures !s18a && bus.card.info.csd.known ==> Explained(r)
    {
      hide Compatible, PoweredUp, WellFormed, DropsScr, DropsStatus, DropsSpeed, Losses, Initialized;
      r := Identify();
      if r != Done {
        return;
      }
      r := SetupCard();
      if r != Done {
        return;
      }
      r := InitBus(s18a);
    }

    /** mmc_sd_init_card. */
    method InitCard(voltage: nat) returns (r: Ending)
      requires bus.Valid() && PoweredUp(bus.card) && !bus.card.low && width == 1 && timing == Legacy
      requires voltage < 0x100_0000 && Compatible(voltage, bus.card.info.window)
      requires bus.Lost() <= {Elsewhere}
      modifies bus, this
      ensures old(bus.log) <= bus.log
      ensures bus.Valid() && bus.card.info == old(bus.card.info) && bus.card.blocks == old(bus.card.blocks)
      ensures bus.legal == (old(bus.legal) && Undisturbed()) && old(bus.Lost()) <= bus.Lost()
      ensures r == Done ==> Initialized() && (bus.card.low ==> bus.card.info.uhs && WantsUhs())
      ensures r == Failed && bus.Lost() == {} && bus.card.state == Tran ==> Refused()
      ensures r == Done ==> High(voltage)
      ensures r == Hung && bus.card.info.powerUp <= patience && High(voltage) ==> Elsewhere in bus.Lost()
      ensures Ordinary(bus.card.info) && High(voltage) ==> Explained(r)
    {
      hide High, Compatible, PoweredUp, WellFormed, DropsScr, DropsStatus, DropsSpeed, Losses, Initialized;
      var rocr;
      r, rocr := GetCid(voltage);
      if r != Done {
        return;
      }
      rca, csd, scr := 0, Csd(false, false, false), Scr(0, 0, false, false);
      highSpeed, cardModes := false, NO_MODES;
      r := BringUp(rocr.s18a);
    }

    /** mmc_rescan on a host set up for an SD card. Over a bus that may lose any commands and answers:
        every command sent is legal if and only if no ACMD51 was lost on its way, nor an ACMD13 (or the
        answer to the CMD55 in front of it) with a CMD6 to follow. When the scan succeeds the card is
        selected, addressed, and both sides use the same lines. */
    method Rescan() returns (r: Ending)
      requires bus.Valid() && bus.log == [] && bus.legal && PoweredUp(bus.card) && !bus.card.low
      requires width == 1 && timing == Legacy
      modifies bus, this
      ensures old(bus.log) <= bus.log
      ensures bus.log != [] && bus.log[0].cmd == Plain(0, 0, 0)
      ensures bus.Valid() && bus.card.info == old(bus.card.info) && bus.card.blocks == old(bus.card.blocks)
      ensures bus.legal <==> Undisturbed()
      ensures r == Done ==> Initialized() && (bus.card.low ==> bus.card.info.uhs && WantsUhs())
      ensures r == Failed && bus.Lost() == {} && bus.card.state == Tran ==> Refused()
      ensures r == Done ==> Powered(bus.card.info.window)
      ensures r == Hung && bus.card.info.powerUp <= patience && Powered(bus.card.info.window) ==>
                Elsewhere in bus.Lost()
      ensures Ordinary(bus.card.info) && Powered(bus.card.info.window) ==> Explained(r)
    {
      hide Bit, High, Compatible, PoweredUp, WellFormed, DropsScr, DropsStatus, DropsSpeed, Common, Initialized;
      AvailHigh();
      GoIdle();
      r := SendIfCond(OCR_AVAIL);
      if r != Done {
        return Failed;
      }
      var ocr;
      r, ocr := SendAppOpCond(0);
      if r != Done {
        return;
      }
      WindowBound(bus.card);
      PoweredShares(bus.card.info.window);
      var voltage := SelectVoltage(ocr.window, OCR_AVAIL);
      if voltage == 0 {
        return Failed;
      }
      Selects(voltage, bus.card);
      r := InitCard(voltage);
    }

    // ---------- reading and erasing ----------

    predicate InRange(op: Operation)
      reads bus
    {
      op.count > 0 && op.lba + op.count <= bus.card.info.capacity
    }

    /** mmc_read_blocks of `count` blocks; several are stopped by CMD12. Any error is an assertion. */
    method ReadBlocks(lba: nat, count: nat) returns (r: Ending, data: seq<nat>)
      requires Steady() && count > 0 && lba + count <= bus.card.info.capacity
      modifies bus
      ensures bus.Valid() && Alike(old(bus.card), bus.card)
      ensures bus.legal == (old(bus.legal) && !(old(bus.card.app) && count > 1))
      ensures old(bus.log) <= bus.log
      ensures Adds(old(bus.Lost()), bus.Lost(), {Elsewhere})
      ensures r == Done ==> Steady() && !bus.card.app && data == bus.card.blocks[lba..lba + count]
      ensures r != Done ==> r == Hung && (Elsewhere in bus.Lost() || (old(bus.card.app) && count > 1))
      ensures old(bus.card.app) && count > 1 ==> r == Hung
    {
      hide Next, Legal, Heard, Answer, DataOf, LossOf, Losses;
      var command := Plain(if count > 1 then 18 else 17, lba, count);
      ReadSent(bus.card, command);
      var ok, answer, read := bus.Send(command);
      if !ok {
        return Hung, [];
      }
      data := read;
      if count > 1 {
        StopSent(bus.card, Plain(12, 0, 0));
        ok, answer, read := bus.Send(Plain(12, 0, 0));
        if !ok {
          return Hung, [];
        }
      }
      var state;
      r, state := DeviceState();
    }

    /** The end of mmc_erase_blocks: the marked blocks are erased, and the host waits for it. */
    method EraseMarked() returns (r: Ending)
      requires Steady() && !bus.card.app && bus.card.eraseFrom.Some? && bus.card.eraseTo.Some?
      modifies bus
      ensures bus.Valid() && Alike(old(bus.card), bus.card.(blocks := old(bus.card).blocks))
      ensures bus.legal == old(bus.legal)
      ensures old(bus.log) <= bus.log
      ensures Adds(old(bus.Lost()), bus.Lost(), {Elsewhere})
      ensures r == Done ==> Steady() && !bus.card.app
      ensures r == Done || bus.card.blocks != old(bus.card.blocks) ==>
                bus.card.blocks == Erased(old(bus.card.blocks), old(bus.card.eraseFrom.value),
                                          old(bus.card.eraseTo.value) + 1, bus.card.info.erasedByte)
      ensures r != Done ==> r == Hung && Elsewhere in bus.Lost()
    {
      hide Next, Legal, Heard, Answer, DataOf, LossOf, Losses, Erased;
      EraseSent(bus.card, Plain(38, 0, 0));
      var ok, _, _ := bus.Send(Plain(38, 0, 0));
      if !ok {
        return Hung;
      }
      r := AwaitTran();
    }

    /** mmc_erase_blocks of `count` blocks. Any error is an assertion; by then the blocks may have been
        erased. */
    method EraseBlocks(lba: nat, count: nat) returns (r: Ending)
      requires Steady() && count > 0 && lba + count <= bus.card.info.capacity
      modifies bus
      ensures bus.Valid() && Alike(old(bus.card), bus.card.(blocks := old(bus.card).blocks))
      ensures bus.legal == old(bus.legal)
      ensures old(bus.log) <= bus.log
      ensures Adds(old(bus.Lost()), bus.Lost(), {Elsewhere})
      ensures r == Done ==> Steady() && !bus.card.app
      ensures r == Done || bus.card.blocks != old(bus.card.blocks) ==>
                bus.card.blocks == Erased(old(bus.card.blocks), lba, lba + count, bus.card.info.erasedByte)
      ensures r != Done ==> r == Hung && Elsewhere in bus.Lost()
    {
      hide Next, Legal, Heard, Answer, DataOf, LossOf, Losses, Erased;
      EraseSent(bus.card, Plain(32, lba, 0));
      var ok, answer, data := bus.Send(Plain(32, lba, 0));
      if !ok {
        return Hung;
      }
      EraseSent(bus.card, Plain(33, lba + count - 1, 0));
      ok, answer, data := bus.Send(Plain(33, lba + count - 1, 0));
      if !ok {
        return Hung;
      }
      r := EraseMarked();
    }

    method Perform(op: Operation) returns (r: Ending, data: seq<nat>)
      requires Steady() && InRange(op)
      modifies bus
      ensures bus.Valid() && bus.card.info == old(bus.card.info)
      ensures bus.card.width == old(bus.card.width) && bus.card.low == old(bus.card.low)
      ensures bus.card.speed == old(bus.card.speed) && bus.card.driver == old(bus.card.driver)
      ensures bus.legal == (old(bus.legal) && !(old(bus.card.app) && op.Read? && op.count > 1))
      ensures old(bus.log) <= bus.log
      ensures Adds(old(bus.Lost()), bus.Lost(), {Elsewhere})
      ensures r == Done ==> Steady() && !bus.card.app && data == ReadResult(old(bus.card.blocks), op)
      ensures r == Done || bus.card.blocks != old(bus.card.blocks) ==>
                bus.card.blocks == AfterOne(old(bus.card.blocks), op, bus.card.info.erasedByte)
      ensures r != Done ==> r == Hung && (Elsewhere in bus.Lost() || (old(bus.card.app) && op.Read? && op.count > 1))
      ensures old(bus.card.app) && op.Read? && op.count > 1 ==> r == Hung
    {
      match op {
        case Read(lba, count) => r, data := ReadBlocks(lba, count);
        case Erase(lba, count) =>
          r := EraseBlocks(lba, count);
          data := [];
      }
    }

    /** The first operation would be taken for an application command. */
    predicate Misread(ops: seq<Operation>)
      reads bus
    {
      bus.card.app && ops != [] && ops[0].Read? && ops[0].count > 1
    }

    /** Any number of reads and erases, in any order, until one of them fails an assertion: every read
        returns what the erases before it left, and nothing else is touched. */
    method Operate(ops: seq<Operation>) returns (r: Ending, results: seq<seq<nat>>)
      requires Steady()
      requires forall k :: 0 <= k < |ops| ==> InRange(ops[k])
      modifies bus
      ensures bus.Valid() && bus.card.info == old(bus.card.info)
      ensures bus.card.width == old(bus.card.width) && bus.card.low == old(bus.card.low)
      ensures bus.card.speed == old(bus.card.speed) && bus.card.driver == old(bus.card.driver)
      ensures bus.legal == (old(bus.legal) && !old(Misread(ops)))
      ensures old(bus.log) <= bus.log
      ensures Adds(old(bus.Lost()), bus.Lost(), {Elsewhere})
      ensures |results| <= |ops| && results == Results(old(bus.card.blocks), ops, |results|, bus.card.info.erasedByte)
      ensures r == Done ==> Steady() && |results| == |ops|
      ensures r != Done ==> r == Hung && |results| < |ops| && (Elsewhere in bus.Lost() || old(Misread(ops)))
      ensures || bus.card.blocks == BlocksAfter(old(bus.card.blocks), ops, |results|, bus.card.info.erasedByte)
              || (r == Hung && |results| < |ops|
                  && bus.card.blocks == BlocksAfter(old(bus.card.blocks), ops, |results| + 1, bus.card.info.erasedByte))
    {
      hide WellFormed, Alike, AfterOne, ReadResult, Losses;
      r, results := Done, [];
      ghost var info, first, misread := bus.card.info, bus.card.blocks, Misread(ops);
      for i := 0 to |ops|
        invariant Steady() && bus.card.info == info && r == Done
        invariant bus.card.width == old(bus.card.width) && bus.card.low == old(bus.card.low)
        invariant bus.card.speed == old(bus.card.speed) && bus.card.driver == old(bus.card.driver)
        invariant bus.legal == (old(bus.legal) && (i == 0 || !misread))
        invariant i == 0 ==> bus.card.app == old(bus.card.app)
        invariant i > 0 ==> !bus.card.app && !misread
        invariant old(bus.log) <= bus.log
        invariant Adds(old(bus.Lost()), bus.Lost(), {Elsewhere})
        invariant bus.card.blocks == BlocksAfter(first, ops, i, info.erasedByte)
        invariant |results| == i && results == Results(first, ops, i, info.erasedByte)
      {
        var data;
        r, data := Perform(ops[i]);
        if r != Done {
          return;
        }
        results := results + [data];
      }
    }
  }

  datatype Operation = Read(lba: nat, count: nat) | Erase(lba: nat, count: nat)

  function AfterOne(b: seq<nat>, op: Operation, byte: nat): (r: seq<nat>)
    ensures |r| == |b|
  {
    match op
    case Read(_, _) => b
    case Erase(lba, count) => Erased(b, lba, lba + count, byte)
  }

  /** The contents after the first n operations. */
  function BlocksAfter(b: seq<nat>, ops: seq<Operation>, n: nat, byte: nat): (r: seq<nat>)
    requires n <= |ops|
    ensures |r| == |b|
  {
    if n == 0 then b else AfterOne(BlocksAfter(b, ops, n - 1, byte), ops[n - 1], byte)
  }

  function ReadResult(b: seq<nat>, op: Operation): seq<nat> {
    if op.Read? && op.lba + op.count <= |b| then b[op.lba..op.lba + op.count] else []
  }

  /** What the operations return: each read the contents the operations before it left. */
  function Results(b: seq<nat>, ops: seq<Operation>, n: nat, byte: nat): (r: seq<seq<nat>>)
    requires n <= |ops|
    ensures |r| == n
  {
    if n == 0 then []
    else Results(b, ops, n - 1, byte) + [ReadResult(BlocksAfter(b, ops, n - 1, byte), ops[n - 1])]
  }

  /** A block read is the erased byte if some operation before erased it, and else what it was. */
  lemma {:induction false} BlocksAfterAt(b: seq<nat>, ops: seq<Operation>, n: nat, byte: nat, k: nat)
    requires n <= |ops| && k < |b|
    ensures BlocksAfter(b, ops, n, byte)[k] ==
            if exists i :: 0 <= i < n && ops[i].Erase? && ops[i].lba <= k < ops[i].lba + ops[i].count
            then byte else b[k]
  {
    if n > 0 {
      BlocksAfterAt(b, ops, n - 1, byte, k);
    }
  }

  /** The life of a card after power-up: a scan, and when it succeeds any operations, over a bus that may
      lose anything. */
  method Session(host: Host, ops: seq<Operation>)
    returns (scan: Ending, r: Ending, results: seq<seq<nat>>)
    requires host.bus.Valid() && host.bus.log == [] && host.bus.legal
    requires PoweredUp(host.bus.card) && !host.bus.card.low && host.width == 1 && host.timing == Legacy
    requires forall k :: 0 <= k < |ops| ==> host.InRange(ops[k])
    modifies host.bus, host
    ensures r == Done ==>
              && host.Steady() && host.width == host.bus.card.width
              && results == Results(old(host.bus.card.blocks), ops, |ops|, host.bus.card.info.erasedByte)
              && host.bus.card.blocks ==
                 BlocksAfter(old(host.bus.card.blocks), ops, |ops|, host.bus.card.info.erasedByte)
    ensures r == Failed ==> host.bus.card.blocks == old(host.bus.card.blocks) && results == []
    ensures |results| <= |ops|
    ensures results == Results(old(host.bus.card.blocks), ops, |results|, host.bus.card.info.erasedByte)
    ensures scan != Done ==> r == scan
    ensures scan == Done ==> host.width == host.bus.card.width && host.Chosen()
    ensures scan == Done && Elsewhere !in host.bus.Lost() && host.bus.legal ==> r == Done
    ensures host.Ordinary(host.bus.card.info) && Powered(host.bus.card.info.window) && !host.forceWidth1
            && host.bus.card.info.scr.structure == 0 && host.bus.Lost() == {} ==>
              r == Done
    ensures host.bus.legal <==>
            host.Undisturbed()
            && !(scan == Done && host.Waits() && ops != [] && ops[0].Read? && ops[0].count > 1)
  {
    hide WellFormed, Alike, Losses;
    results := [];
    scan := host.Rescan();
    r := scan;
    if r == Done {
      r, results := host.Operate(ops);
    }
  }

  // ---------- scans over certain buses ----------

  function Reliable(n: nat, cmd: Command): Outcome {
    Delivered
  }

  function LosesScr(n: nat, cmd: Command): Outcome {
    if cmd.app && cmd.index == 51 then CommandLost else Delivered
  }

  function LosesStatus(n: nat, cmd: Command): Outcome {
    if cmd.app && cmd.index == 13 then CommandLost else Delivered
  }

  function LosesStatusAnswer(n: nat, cmd: Command): Outcome {
    if !cmd.app && cmd.index == 55 && cmd.announces == 13 then AnswerLost else Delivered
  }

  function LosesSpeedAnswer(n: nat, cmd: Command): Outcome {
    if cmd == Plain(6, HIGH_SPEED_ARG, 1) then AnswerLost else Delivered
  }

  lemma {:induction false} OnlyLosses(log: seq<Entry>, fate: (nat, Command) -> Outcome, losses: set<Loss>)
    requires forall k :: 0 <= k < |log| ==> log[k].outcome == fate(k, log[k].cmd)
    requires forall n: nat, cmd: Command :: LossOf(Entry(cmd, fate(n, cmd))) <= losses
    ensures Losses(log) <= losses
  {
    if log != [] {
      var n := |log| - 1;
      OnlyLosses(log[..n], fate, losses);
      assert LossOf(log[n]) == LossOf(Entry(log[n].cmd, fate(n, log[n].cmd)));
    }
  }

  /** A card of the 3.3 V kind with a known CSD and SCR and all its command classes. */
  ghost predicate PlainCard(c: Card) {
    && PoweredUp(c) && !c.low && !c.info.uhs && Powered(c.info.window)
    && c.info.csd == Csd(true, true, true) && c.info.scr.structure == 0
  }

  const ALL_MODES: Modes := Modes(true, true, true, true, true)

  /** A first scan by a host without special settings: how it ends, whether all its commands were legal,
      and whether host and card agree on the timing. */
  method Scan(fate: (nat, Command) -> Outcome, card: Card, ghost losses: set<Loss>)
    returns (r: Ending, legal: bool, agree: bool)
    requires PlainCard(card)
    requires Elsewhere !in losses && forall n: nat, cmd: Command :: LossOf(Entry(cmd, fate(n, cmd))) <= losses
    ensures losses == {} ==> r == Done && legal && agree
    ensures DropsScr(fate) ==> !legal
    ensures losses == {StatusRequest} && DropsStatus(fate) ==> (legal <==> card.info.scr.version < 1)
    ensures losses == {SpeedAnswer} && DropsSpeed(fate) ==>
              r == Done && legal
              && (agree <==> card.info.scr.version < 1 || !card.info.modes.sdr25 || 1 !in card.info.functions)
  {
    hide DropsScr, DropsStatus, DropsSpeed, Powered, LossOf, Losses, Common;
    var bus := new Bus(fate, card);
    var host := new Host(bus, ALL_MODES, false, false, true, true, card.info.powerUp);
    r := host.Rescan();
    OnlyLosses(bus.log, fate, losses);
    legal, agree := bus.legal, Fits(host.timing, bus.card.speed);
  }

  /** On a reliable bus every such card comes up. With every ACMD51, every ACMD13, or every answer to the
      CMD55 in front of one lost, and all else delivered, the driver sends an illegal command; with every
      answer to the switch to high speed lost, the scan succeeds with host and card on different timings. */
  method FailingScans(card: Card) returns (reliable: bool, scr: bool, status: bool, answer: bool, speed: bool)
    requires PlainCard(card) && card.info.scr.version >= 1 && card.info.modes.sdr25 && 1 in card.info.functions
    ensures reliable && !scr && !status && !answer && !speed
  {
    hide PlainCard, Losses;
    var r, agree;
    r, reliable, agree := Scan(Reliable, card, {});
    reliable := r == Done && reliable && agree;
    r, scr, agree := Scan(LosesScr, card, {ScrRequest});
    r, status, agree := Scan(LosesStatus, card, {StatusRequest});
    r, answer, agree := Scan(LosesStatusAnswer, card, {StatusRequest});
    r, agree, speed := Scan(LosesSpeedAnswer, card, {SpeedAnswer});
  }

  const EXAMPLE: Card :=
    Card(Info(OCR_AVAIL, false, 4, 2, 1, 1, Csd(true, true, true), Scr(0, 2, true, true), ALL_MODES, {0, 1}, {0}, 0),
         Idle, false, 0, 2, false, false, 1, 0, 0, None, None, 0, [7, 7, 7, 7])

  lemma ExampleIsPlain()
    ensures PlainCard(EXAMPLE) && EXAMPLE.info.scr.version >= 1
    ensures EXAMPLE.info.modes.sdr25 && 1 in EXAMPLE.info.functions
  {
    AvailBits(20);
  }
}
