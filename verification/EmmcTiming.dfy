/** Bus width and timing selection of an eMMC device (drivers/sdhci/mmc.c), over a bus that may fail
    and a device that may refuse any switch. */
module EmmcTiming {
  import opened Options

  const EIO: int := -5
  const EINVAL: int := -22
  const EBADMSG: int := -77

  // ios.timing
  const LEGACY: nat := 0
  const MMC_HS: nat := 1
  const MMC_DDR52: nat := 8
  const MMC_HS200: nat := 9

  // registers of the device and their values
  const BUS_WIDTH: nat := 183
  const HS_TIMING: nat := 185
  const PART_CONFIG: nat := 179
  const WIDTH_1: nat := 0
  const WIDTH_4: nat := 1
  const DDR_WIDTH_4: nat := 5
  const TIMING_HS: nat := 1
  const TIMING_HS200: nat := 2

  datatype Voltage = V330 | V180 | V120

  /** What a status read reports: still programming, and whether a switch was refused. */
  datatype Status = Status(programming: bool, switchError: bool)

  /** What the device has made of a switch of its timing. */
  datatype Decision = Decision(value: nat, accepted: bool)

  /** The device on its bus. A switch it refuses leaves its registers alone and raises the switch error,
      which the next status read behind the programming time reports and clears. What becomes of the
      n-th command on the bus, and whether the device would accept it as a switch of a register to a
      value, is given in advance. */
  class Device {
    const fate: nat -> int
    const accepts: (nat, nat, nat) -> bool
    var sent: nat
    var width: nat
    var timing: nat
    var partition: nat
    var switchError: bool
    var busy: nat
    /** On the last switch of the timing since the reset. */
    var decision: Option<Decision>

    constructor (fate: nat -> int, accepts: (nat, nat, nat) -> bool)
      ensures this.fate == fate && this.accepts == accepts && sent == 0
      ensures width == 0 && timing == 0 && !switchError && busy == 0 && decision == None
    {
      this.fate, this.accepts, sent := fate, accepts, 0;
      width, timing, switchError, busy, decision := 0, 0, false, 0, None;
      partition := 0;
    }

    /** No command is lost on the bus. */
    ghost predicate Faultless() {
      forall n: nat :: fate(n) == 0
    }

    /** The device accepts every switch. */
    ghost predicate Accepting() {
      forall n: nat, index: nat, value: nat :: accepts(n, index, value)
    }

    /** One more command on the bus, and its outcome. */
    method BusError() returns (err: int)
      modifies this`sent
      ensures sent == old(sent) + 1
      ensures err == 0 || (err < 0 && err != EBADMSG)
      ensures Faultless() ==> err == 0
    {
      err := fate(sent);
      sent := sent + 1;
      if err >= 0 || err == EBADMSG {
        err := 0;
      }
    }

    /** The data lines in use, by the values of BUS_WIDTH (4 lines: 1, or 5 at both edges). */
    function Lines(): nat
      reads this
    {
      if width == 1 || width == 5 then 4 else if width == 0 then 1 else 8
    }

    method Reset()
      modifies this
      ensures width == 0 && timing == 0 && !switchError && busy == 0 && decision == None && sent == old(sent)
    {
      width, timing, switchError, busy, decision := 0, 0, false, 0, None;
    }

    /** CMD6, writing one byte of the extended CSD: byte 183 is the bus width, 185 the timing, 179 the
        partition configuration. A command lost on the way back may have worked. */
    method Switch(index: nat, value: nat) returns (err: int)
      requires busy == 0 && !switchError
      modifies this
      ensures err == 0 || (err < 0 && err != EBADMSG)
      ensures width == old(width) || (index == 183 && width == value)
      ensures timing == old(timing) || (index == 185 && timing == value)
      ensures err == 0 && !switchError ==>
                (index == 183 ==> width == value) && (index == 185 ==> timing == value)
      ensures switchError ==> width == old(width) && timing == old(timing)
      ensures err == 0 ==> switchError == !accepts(old(sent), index, value)
      ensures Faultless() ==> err == 0
      ensures index != 185 ==> decision == old(decision)
      ensures err == 0 && index == 185 ==> decision == Some(Decision(value, !switchError))
      ensures partition == old(partition) || (index == 179 && partition == value)
      ensures err == 0 && index == 179 && !switchError ==> partition == value
    {
      var accepted := accepts(sent, index, value);
      err := BusError();
      var arrived: bool := *;
      if err != 0 && !arrived {
        return;
      }
      var time: nat :| true;
      busy := time;
      if index == 185 {
        decision := Some(Decision(value, accepted));
      }
      if !accepted {
        switchError := true;
      } else if index == 183 {
        width := value;
      } else if index == 185 {
        timing := value;
      } else if index == 179 {
        partition := value;
      }
    }

    /** The time the device itself declares for a switch passes. */
    method Delay()
      modifies this`busy
      ensures busy == 0
    {
      busy := 0;
    }

    /** CMD13. */
    method ReadStatus() returns (err: int, status: Status)
      modifies this`sent, this`busy, this`switchError
      ensures Faultless() ==> err == 0
      ensures err == 0 || (err < 0 && err != EBADMSG)
      ensures err != 0 ==> busy == old(busy) && switchError == old(switchError)
      ensures err == 0 && old(busy) > 0 ==>
                status == Status(true, false) && busy == old(busy) - 1 && switchError == old(switchError)
      ensures err == 0 && old(busy) == 0 ==>
                status == Status(false, old(switchError)) && busy == 0 && !switchError
    {
      status := Status(false, false);
      err := BusError();
      if err == 0 {
        if busy > 0 {
          busy := busy - 1;
          status := Status(true, false);
        } else {
          status := Status(false, switchError);
          switchError := false;
        }
      }
    }
  }

  /** mmc_switch_status_error. */
  function StatusError(status: Status): int {
    if status.switchError then EBADMSG else 0
  }

  /** The timings host and device share. */
  datatype Available = Available(hs200At12: bool, hs200At18: bool, hs: bool, ddrAt12: bool, ddrAt18: bool)

  class Host {
    const device: Device
    const forceWidth1: bool
    const force18: bool
    /** Whether the supply settles on a voltage in time, and whether tuning succeeds. */
    const settles: Voltage -> bool
    const tunes: bool
    /** ios.timing, ios.bus_width in lines, ios.signal_voltage. */
    var timing: nat
    var width: nat
    var voltage: Voltage

    constructor (device: Device, forceWidth1: bool, force18: bool, settles: Voltage -> bool, tunes: bool)
      ensures this.device == device && this.forceWidth1 == forceWidth1 && this.force18 == force18
      ensures this.settles == settles && this.tunes == tunes
      ensures timing == LEGACY && width == 1 && voltage == V330
    {
      this.device, this.forceWidth1, this.force18 := device, forceWidth1, force18;
      this.settles, this.tunes := settles, tunes;
      timing, width, voltage := LEGACY, 1, V330;
    }

    /** No switch is under way or unreported. */
    predicate Quiet()
      reads device
    {
      device.busy == 0 && !device.switchError
    }

    /** The host drives four lines only when the device does. */
    predicate WidthSafe()
      reads this, device
    {
      (width == 1 || width == 4) && (width == 4 ==> device.Lines() == 4)
    }

    /** mmc_set_bus_width: four lines only to a device that has accepted them. */
    method SetBusWidth(lines: nat)
      requires lines == 1 || (lines == 4 && device.Lines() == 4)
      modifies this`width
      ensures width == lines && WidthSafe()
    {
      width := lines;
    }

    /** __mmc_set_signal_voltage; there is no 1.2 V supply. */
    method SetSignalVoltage(v: Voltage) returns (err: int)
      modifies this`voltage
      ensures err == 0 ==> voltage == v
      ensures err != 0 ==> err < 0 && err != EBADMSG && voltage == old(voltage)
      ensures err == if v == V120 then -1 else if settles(v) then 0 else -11
    {
      var was := voltage;
      voltage := v;
      err := -1;
      if v != V120 {
        err := if settles(v) then 0 else -11;
      }
      if err != 0 {
        voltage := was;
      }
    }

    /** __mmc_switch: with status reads, until the device is no longer programming; without, blindly. */
    method RawSwitch(index: nat, value: nat, sendStatus: bool) returns (err: int)
      requires Quiet()
      modifies device
      ensures err == 0 || err < 0
      ensures device.width == old(device.width) || (index == BUS_WIDTH && device.width == value)
      ensures device.timing == old(device.timing) || (index == HS_TIMING && device.timing == value)
      ensures err == EBADMSG ==> sendStatus && device.width == old(device.width) && device.timing == old(device.timing)
      ensures err == EBADMSG ==> Quiet()
      ensures err == 0 && sendStatus ==>
                Quiet() && (index == BUS_WIDTH ==> device.width == value)
                && (index == HS_TIMING ==> device.timing == value)
      ensures err == 0 && !sendStatus ==> device.busy == 0
      ensures err == 0 && !sendStatus && !device.switchError ==>
                (index == BUS_WIDTH ==> device.width == value) && (index == HS_TIMING ==> device.timing == value)
      ensures device.switchError ==> device.width == old(device.width) && device.timing == old(device.timing)
      ensures err == 0 && !sendStatus ==> device.switchError == !device.accepts(old(device.sent), index, value)
      ensures err == 0 && sendStatus ==> device.accepts(old(device.sent), index, value)
      ensures err == EBADMSG ==> !device.accepts(old(device.sent), index, value)
      ensures device.Faultless() ==> err == 0 || err == EBADMSG
      ensures index != HS_TIMING ==> device.decision == old(device.decision)
      ensures device.partition == old(device.partition) || (index == PART_CONFIG && device.partition == value)
      ensures err == 0 && sendStatus && index == PART_CONFIG ==> device.partition == value
      ensures err == 0 && !sendStatus && index == HS_TIMING ==>
                device.decision == Some(Decision(value, !device.switchError))
    {
      err := device.Switch(index, value);
      if err != 0 {
        return;
      }
      ghost var width, timing, refused, decision := device.width, device.timing, device.switchError, device.decision;
      ghost var partition := device.partition;
      var status := Status(false, false);
      var first := true;
      while first || status.programming
        invariant device.width == width && device.timing == timing && device.decision == decision
        invariant device.partition == partition
        invariant first ==> device.switchError == refused && status == Status(false, false)
        invariant !first && status.programming ==> sendStatus && device.switchError == refused && !status.switchError
        invariant !first && !status.programming ==>
                    if sendStatus then Quiet() && status.switchError == refused
                    else device.switchError == refused && !status.switchError
        invariant !first ==> device.busy == 0
        decreases first, status.programming
      {
        first := false;
        if sendStatus {
          err, status := device.ReadStatus();
          if err != 0 {
            return;
          }
        }
        device.Delay();
      }
      err := StatusError(status);
    }

    /** mmc_switch. */
    method SwitchRegister(index: nat, value: nat) returns (err: int)
      requires Quiet()
      modifies device
      ensures err == 0 || err < 0
      ensures device.width == old(device.width) || (index == BUS_WIDTH && device.width == value)
      ensures device.timing == old(device.timing) || (index == HS_TIMING && device.timing == value)
      ensures err == 0 || err == EBADMSG ==> Quiet()
      ensures index != HS_TIMING ==> device.decision == old(device.decision)
      ensures device.partition == old(device.partition) || (index == PART_CONFIG && device.partition == value)
      ensures err == 0 && index == PART_CONFIG ==> device.partition == value
      ensures err == EBADMSG ==> !device.accepts(old(device.sent), index, value)
      ensures device.Faultless() ==> err == 0 || err == EBADMSG
      ensures err == EBADMSG ==> device.width == old(device.width) && device.timing == old(device.timing)
      ensures err == 0 ==>
                (index == BUS_WIDTH ==> device.width == value) && (index == HS_TIMING ==> device.timing == value)
    {
      err := RawSwitch(index, value, true);
    }

    /** mmc_select_bus_width for a device with an extended CSD: a positive result says four lines. */
    method SelectBusWidth() returns (err: int)
      requires Quiet() && WidthSafe() && (width == 4 ==> !forceWidth1)
      modifies device, this`width
      ensures WidthSafe() && (width == 4 ==> !forceWidth1)
      ensures device.timing == old(device.timing) && device.decision == old(device.decision)
      ensures device.partition == old(device.partition)
      ensures err > 0 ==> err == 2
      ensures err >= 0 || err == EBADMSG ==> Quiet()
      ensures err < 0 ==> width == old(width)
      ensures err >= 0 ==> width == device.Lines() && (err > 0 <==> width == 4) && (width == 4 <==> !forceWidth1)
      ensures err == EBADMSG ==>
                !device.accepts(old(device.sent), BUS_WIDTH, if forceWidth1 then WIDTH_1 else WIDTH_4)
      ensures device.Faultless() ==> err >= 0 || err == EBADMSG
    {
      err := SwitchRegister(BUS_WIDTH, if forceWidth1 then WIDTH_1 else WIDTH_4);
      if err != 0 {
        return;
      }
      SetBusWidth(if forceWidth1 then 1 else 4);
      err := if forceWidth1 then 0 else 2;
    }

    /** mmc_switch_status. */
    method SwitchStatus() returns (err: int)
      requires device.busy == 0
      modifies device`sent, device`busy, device`switchError
      ensures device.Faultless() ==> err == 0 || err == EBADMSG
      ensures err <= 0 && (err == 0 || err == EBADMSG ==> Quiet())
      ensures err == 0 ==> !old(device.switchError)
      ensures err == EBADMSG ==> old(device.switchError)
      ensures err != 0 && err != EBADMSG ==> device.switchError == old(device.switchError)
    {
      var status;
      err, status := device.ReadStatus();
      if err == 0 {
        err := StatusError(status);
      }
    }

    /** The device has last been asked for HS200, and has accepted it or not. */
    predicate AskedHs200(accepted: bool)
      reads device
    {
      device.decision.Some? && device.decision.value.value % 16 == 2 && device.decision.value.accepted == accepted
    }

    /** mmc_select_hs200. Without an error the device has taken HS200 and both sides four lines, or the
        host was told to stay on one line and its timing is what it was; after a refusal it is, too. */
    method SelectHs200(avail: Available) returns (err: int)
      requires Quiet() && WidthSafe() && (width == 4 ==> !forceWidth1)
      requires avail.hs200At12 || avail.hs200At18
      requires timing != MMC_HS200
      modifies device, this`width, this`timing, this`voltage
      ensures err <= 0 && WidthSafe() && (width == 4 ==> !forceWidth1)
      ensures err == 0 || err == EBADMSG ==> Quiet()
      ensures err == EBADMSG ==> timing == old(timing) && device.timing == old(device.timing)
      ensures err == 0 && forceWidth1 ==> timing == old(timing) && device.timing == old(device.timing)
      ensures err == 0 && !forceWidth1 ==>
                timing == MMC_HS200 && width == device.Lines() == 4 && device.timing % 16 == TIMING_HS200
                && AskedHs200(true)
      ensures err == 0 && forceWidth1 ==> device.decision == old(device.decision)
      ensures err == EBADMSG ==>
                || (!forceWidth1 && AskedHs200(false))
                || (device.decision == old(device.decision)
                    && !device.accepts(old(device.sent), BUS_WIDTH, if forceWidth1 then WIDTH_1 else WIDTH_4))
      ensures device.Faultless() && avail.hs200At18 && settles(V180) ==> err == 0 || err == EBADMSG
      ensures device.Accepting() ==> err != EBADMSG
      ensures err == 0 || err == EBADMSG ==> avail.hs200At18 && settles(V180) && voltage == V180
      ensures old(width) == 1 && width == 4 && timing == old(timing) && err != EBADMSG ==>
                if old(voltage) != V120 && settles(old(voltage)) then voltage == old(voltage)
                else err == -5 && voltage == V180
      ensures device.partition == old(device.partition)
    {
      var oldVoltage := voltage;
      err := EINVAL;
      if avail.hs200At12 {
        err := SetSignalVoltage(V120);
      }
      if err != 0 && avail.hs200At18 {
        err := SetSignalVoltage(V180);
      }
      if err != 0 {
        return;
      }
      var strength: nat :| strength < 16;
      err := SelectBusWidth();
      if err > 0 {
        err := RawSwitch(HS_TIMING, TIMING_HS200 + 16 * strength, false);
        if err != 0 {
          var failed := SetSignalVoltage(oldVoltage);
          if failed != 0 {
            err := EIO;
          }
          return;
        }
        var oldTiming := timing;
        timing := MMC_HS200;
        err := SwitchStatus();
        if err == EBADMSG {
          timing := oldTiming;
        }
      }
    }

    /** mmc_select_hs. Unlike HS200, high speed stays set on the host when the device has refused it. */
    method SelectHs() returns (err: int)
      requires Quiet()
      modifies device, this`timing, this`voltage
      ensures err <= 0 && device.width == old(device.width) && device.partition == old(device.partition)
      ensures voltage == if force18 && settles(V180) then V180 else old(voltage)
      ensures err == 0 || err == EBADMSG ==> Quiet() && timing == MMC_HS
      ensures err == 0 ==> device.timing == TIMING_HS
      ensures err == EBADMSG ==> device.timing == old(device.timing)
      ensures err == 0 || err == EBADMSG ==> device.decision == Some(Decision(TIMING_HS, err == 0))
      ensures err == 0 ==> device.accepts(old(device.sent), HS_TIMING, TIMING_HS)
      ensures device.Faultless() ==>
                err == if device.accepts(old(device.sent), HS_TIMING, TIMING_HS) then 0 else EBADMSG
    {
      err := RawSwitch(HS_TIMING, TIMING_HS, false);
      if err == 0 {
        timing := MMC_HS;
        err := SwitchStatus();
      }
      if force18 {
        var _ := SetSignalVoltage(V180);
      }
    }

    /** How the timings of both sides compare behind a successful scan: they agree, except that a host on
        high speed may face a device that has refused it and is still on its first timing. */
    predicate Compared()
      reads this, device
    {
      if timing == LEGACY then device.timing == 0
      else if timing == MMC_HS200 then width == 4 && device.timing % 16 == TIMING_HS200
      else
        && (timing == MMC_HS || timing == MMC_DDR52)
        && device.decision.Some? && device.decision.value.value == TIMING_HS
        && device.timing == if device.decision.value.accepted then TIMING_HS else 0
    }

    /** The timing that is selected: none when none is shared, high speed when there is no HS200, and
        HS200 when the device has accepted it on four lines. */
    predicate Selected(avail: Available)
      reads this, device
    {
      if !avail.hs200At12 && !avail.hs200At18 then
        if avail.hs then timing == MMC_HS && device.decision.Some? && device.decision.value.value == 1
        else timing == LEGACY && device.decision == None
      else if forceWidth1 then timing == LEGACY && device.decision == None
      else if device.decision == None then timing == LEGACY
      else if device.decision.value.accepted then timing == MMC_HS200 && AskedHs200(true)
      else timing == LEGACY && AskedHs200(false)
    }

    /** mmc_select_timing. */
    method SelectTiming(avail: Available) returns (err: int)
      requires Quiet() && WidthSafe() && (width == 4 ==> !forceWidth1)
      requires timing == LEGACY && device.timing == 0 && device.decision == None
      modifies device, this`width, this`timing, this`voltage
      ensures err <= 0 && WidthSafe() && (width == 4 ==> !forceWidth1)
      ensures err == 0 ==> Quiet() && Compared() && Selected(avail)
      ensures err == 0 && timing == MMC_HS200 ==> width == device.Lines() == 4
      ensures device.partition == old(device.partition)
      ensures err == 0 ==>
                voltage == if avail.hs200At12 || avail.hs200At18 || (avail.hs && force18 && settles(V180)) then V180
                           else old(voltage)
      ensures err == 0 && (avail.hs200At12 || avail.hs200At18) && !forceWidth1 && device.decision == None ==>
                !device.accepts(old(device.sent), BUS_WIDTH, WIDTH_4)
      ensures err == 0 && (avail.hs200At12 || avail.hs200At18) && !forceWidth1 && device.Accepting() ==>
                timing == MMC_HS200
      ensures device.Faultless() && (avail.hs200At12 ==> avail.hs200At18) && (avail.hs200At18 ==> settles(V180)) ==>
                err == 0
    {
      err := 0;
      if avail.hs200At12 || avail.hs200At18 {
        err := SelectHs200(avail);
      } else if avail.hs {
        ghost var lines := device.Lines();
        err := SelectHs();
        assert device.Lines() == lines;
      }
      if err != 0 && err != EBADMSG {
        return;
      }
      err := 0;
    }

    /** mmc_select_hs_ddr. */
    method SelectHsDdr(avail: Available) returns (err: int)
      requires Quiet() && WidthSafe() && width == device.Lines()
      modifies device, this`timing, this`voltage
      ensures err <= 0 && WidthSafe()
      ensures device.timing == old(device.timing) && device.decision == old(device.decision)
      ensures device.partition == old(device.partition)
      ensures err == 0 ==>
                voltage == if (!avail.ddrAt12 && !avail.ddrAt18) || width != 4 then old(voltage)
                           else if avail.ddrAt18 && settles(V180) then V180 else V330
      ensures err == 0 ==>
                width == device.Lines()
                && timing == if (avail.ddrAt12 || avail.ddrAt18) && width == 4 then MMC_DDR52 else old(timing)
      ensures device.Faultless() && settles(V180) && settles(V330) ==>
                err == 0 || !device.accepts(old(device.sent), BUS_WIDTH, DDR_WIDTH_4)
    {
      if !avail.ddrAt12 && !avail.ddrAt18 {
        return 0;
      }
      if width == 1 {
        return 0;
      }
      err := SwitchRegister(BUS_WIDTH, DDR_WIDTH_4);
      if err != 0 {
        return;
      }
      err := EINVAL;
      if avail.ddrAt12 {
        err := SetSignalVoltage(V120);
      }
      if err != 0 && avail.ddrAt18 {
        err := SetSignalVoltage(V180);
      }
      if err != 0 {
        err := SetSignalVoltage(V330);
      }
      if err == 0 {
        timing := MMC_DDR52;
      }
    }

    /** What a successful scan has selected: on high speed, DDR as well when both sides have it and use
        four lines. */
    predicate Settled(avail: Available)
      reads this, device
    {
      if !avail.hs200At12 && !avail.hs200At18 && avail.hs then
        && timing == (if (avail.ddrAt12 || avail.ddrAt18) && !forceWidth1 then MMC_DDR52 else MMC_HS)
        && device.decision.Some? && device.decision.value.value == 1
      else Selected(avail)
    }

    /** The signal voltage behind a successful scan: 1.8 V for HS200; for DDR as far as it is shared and
        the supply settles on it, and else 3.3 V; otherwise as told. */
    function SignalVoltage(avail: Available, was: Voltage): Voltage {
      if avail.hs200At12 || avail.hs200At18 then V180
      else if avail.hs && (avail.ddrAt12 || avail.ddrAt18) && !forceWidth1 then
        if avail.ddrAt18 && settles(V180) then V180 else V330
      else if avail.hs && force18 && settles(V180) then V180
      else was
    }

    /** mmc_init_card from the reset on. What comes before the timing (power-up, identification, CSD and
        extended CSD) may fail; otherwise it only finds out what the device can do, and whether a
        partition has to be switched off. */
    method InitCard(avail: Available, extended: bool, partition: Option<nat>) returns (err: int)
      requires width == 1 && timing == LEGACY
      modifies device, this`width, this`timing, this`voltage
      ensures WidthSafe()
      ensures err == 0 ==> width == device.Lines() == if forceWidth1 then 1 else 4
      ensures err == 0 ==> Compared() && Settled(avail) && (timing == MMC_HS200 ==> tunes)
      ensures err == 0 ==> extended && voltage == SignalVoltage(avail, old(voltage))
      ensures err == 0 && partition.Some? && device.accepts(old(device.sent) + 1, PART_CONFIG, partition.value) ==>
                device.partition == partition.value
      ensures err == 0 && (avail.hs200At12 || avail.hs200At18) && !forceWidth1
              && (forall n :: device.accepts(n, BUS_WIDTH, WIDTH_4)) ==>
                device.decision.Some?
      ensures err == 0 && (avail.hs200At12 || avail.hs200At18) && !forceWidth1 && device.Accepting() ==>
                timing == MMC_HS200
      ensures device.Faultless() && device.Accepting() && extended && tunes && settles(V180) && settles(V330)
              && (avail.hs200At12 ==> avail.hs200At18) ==>
                err == 0
    {
      device.Reset();
      err := device.BusError();
      if err != 0 {
        return;
      }
      if partition.Some? {
        err := SwitchRegister(PART_CONFIG, partition.value);
        if err != 0 && err != EBADMSG {
          return;
        }
      }
      if !extended {
        return -1;
      }
      err := SelectTiming(avail);
      if err != 0 {
        return;
      }
      if timing == MMC_HS200 {
        err := if tunes then 0 else -1;
      } else {
        err := SelectBusWidth();
        if err > 0 {
          if timing == MMC_HS {
            err := SelectHsDdr(avail);
          } else {
            err := 0;
          }
        }
      }
    }
  }

  /** bm_mmc_setup_host and the first mmc_rescan of an eMMC device. */
  method FirstScan(device: Device, forceWidth1: bool, force18: bool, settles: Voltage -> bool, tunes: bool,
                   avail: Available, extended: bool, partition: Option<nat>)
    returns (err: int, host: Host)
    modifies device
    ensures fresh(host) && host.device == device && host.WidthSafe() && host.forceWidth1 == forceWidth1
    ensures err == 0 || err == -1
    ensures err == 0 ==> host.width == device.Lines() == if forceWidth1 then 1 else 4
    ensures host.force18 == force18 && host.settles == settles
    ensures err == 0 ==> host.Compared() && host.Settled(avail) && (host.timing == MMC_HS200 ==> tunes)
    ensures err == 0 ==> extended && host.voltage == host.SignalVoltage(avail, V330)
    ensures err == 0 && (avail.hs200At12 || avail.hs200At18) && !forceWidth1
            && (forall n :: device.accepts(n, BUS_WIDTH, WIDTH_4)) ==>
              device.decision.Some?
    ensures err == 0 && (avail.hs200At12 || avail.hs200At18) && !forceWidth1 && device.Accepting() ==>
              host.timing == MMC_HS200 && device.timing % 16 == 2
    ensures device.Faultless() && device.Accepting() && extended && tunes && settles(V180) && settles(V330)
            && (avail.hs200At12 ==> avail.hs200At18) ==>
              err == 0
  {
    host := new Host(device, forceWidth1, force18, settles, tunes);
    device.Reset();
    var failed := device.BusError();
    if failed != 0 {
      return -1, host;
    }
    err := host.InitCard(avail, extended, partition);
    if err != 0 {
      err := -1;
    }
  }

  /** A device that refuses high speed, on a bus without faults: the refusal is reported, but the host
      stays on the timing the device has not taken. */
  method RefusedHs() returns (err: int, hostTiming: nat, deviceTiming: nat)
    ensures err == -77 && hostTiming == 1 && deviceTiming == 0
  {
    var device := new Device(_ => 0, (_, _, _) => false);
    var host := new Host(device, false, false, _ => true, true);
    err := host.SelectHs();
    hostTiming, deviceTiming := host.timing, device.timing;
  }
}
