/** A high-capacity SD card as the SD Physical Layer Specification describes it (states in section 4.8,
    application commands in section 4.3.9), behind a bus that may lose commands and answers. */
module SdCard {
  import opened MachineWords
  import opened Options

  datatype State = Idle | Ready | Ident | Stby | Tran | Data | Prg

  /** Bus speed modes, by the bits of the function group and of host->bus_mode. */
  datatype Modes = Modes(sdr12: bool, sdr25: bool, sdr50: bool, sdr104: bool, ddr50: bool)

  /** What the driver decodes from the SCR, and from the CSD (whether its structure is known, and the
      command classes 8 and 10). */
  datatype Scr = Scr(structure: nat, version: nat, spec3: bool, wide: bool)
  datatype Csd = Csd(known: bool, application: bool, switch: bool)

  /** What the card is: voltage window, 1.8 V capability, capacity in blocks, how long it takes, what
      its registers say, and which bus speeds and driver strengths it switches to when asked (groups 1
      and 3 of CMD6). */
  datatype Info = Info(window: nat, uhs: bool, capacity: nat, powerUp: nat, eraseTime: nat, newRca: nat,
                       csd: Csd, scr: Scr, modes: Modes, functions: set<nat>, drivers: set<nat>, erasedByte: nat)

  datatype Card = Card(info: Info, state: State, app: bool, rca: nat, polls: nat, accepted: bool, low: bool,
                       width: nat, speed: nat, driver: nat, eraseFrom: Option<nat>, eraseTo: Option<nat>, busy: nat,
                       blocks: seq<nat>)

  predicate WellFormed(c: Card) {
    && |c.blocks| == c.info.capacity && 0 < c.info.newRca < TWO16
    && c.info.window < 0x100_0000 && c.info.scr.wide
    && (c.busy > 0 ==> c.state == Prg)
  }

  /** Whether the host means an application command, the index, the argument and the number of data
      blocks asked for; for CMD55, the index of the application command it announces. */
  datatype Command = Command(app: bool, index: nat, arg: nat, count: nat, announces: nat)

  function Plain(index: nat, arg: nat, count: nat): Command {
    Command(false, index, arg, count, 0)
  }

  function Application(index: nat, arg: nat, count: nat): Command {
    Command(true, index, arg, count, 0)
  }

  function Announce(index: nat, arg: nat): Command {
    Command(false, 55, arg, 0, index)
  }

  const HCS: nat := 30
  const S18R: nat := 24

  /** The voltage window of an ACMD41 argument is empty: the card is only asked for its own. */
  predicate Inquiry(arg: nat) {
    arg % 0x100_0000 == 0
  }

  predicate Compatible(arg: nat, window: nat) {
    exists b: nat :: b < 24 && Bit(arg, b) && Bit(window, b)
  }

  predicate Addressed(c: Card, arg: nat) {
    arg == c.rca * TWO16
  }

  predicate Selected(c: Card) {
    c.state == Tran || c.state == Data || c.state == Prg
  }

  /** The indices with an application command of their own. Behind a CMD55 the card reads any other
      index as the ordinary command (section 4.3.9.1). */
  predicate AppDefined(index: nat) {
    index in {6, 13, 18, 22, 23, 25, 26, 38, 41, 42, 43, 44, 45, 46, 47, 48, 49, 51}
  }

  /** The card takes the command for an application command. */
  predicate AsApplication(c: Card, cmd: Command) {
    c.app && AppDefined(cmd.index)
  }

  predicate ObeysApplication(c: Card, cmd: Command) {
    if cmd.index == 41 then
      c.state == Idle && (Inquiry(cmd.arg) || Compatible(cmd.arg, c.info.window))
    else if cmd.index == 6 then c.state == Tran && (cmd.arg % 4 == 0 || cmd.arg % 4 == 2)
    else (cmd.index == 13 || cmd.index == 51) && c.state == Tran
  }

  predicate ObeysPlain(c: Card, cmd: Command) {
    match cmd.index
    case 0 => true
    case 8 => c.state == Idle
    case 55 => if c.state == Idle then cmd.arg == 0 else (c.state == Stby || Selected(c)) && Addressed(c, cmd.arg)
    case 11 => c.state == Ready && c.accepted && !c.low
    case 2 => c.state == Ready
    case 3 => c.state == Ident || c.state == Stby
    case 9 => c.state == Stby && Addressed(c, cmd.arg)
    case 7 => c.state == Stby && Addressed(c, cmd.arg)
    case 13 => (c.state == Stby || Selected(c)) && Addressed(c, cmd.arg)
    case 6 => c.state == Tran && c.info.csd.switch
    case 19 => c.state == Tran && c.low
    case 17 => c.state == Tran && cmd.arg < c.info.capacity
    case 18 => c.state == Tran && cmd.arg < c.info.capacity
    case 12 => c.state == Data
    case 32 => c.state == Tran && cmd.arg < c.info.capacity
    case 33 => c.state == Tran && c.eraseFrom.Some? && c.eraseFrom.value <= cmd.arg < c.info.capacity
    case 38 => c.state == Tran && c.eraseFrom.Some? && c.eraseTo.Some?
    case _ => false
  }

  /** The commands a card obeys in its state; any other is an illegal command to it. */
  predicate Obeys(c: Card, cmd: Command) {
    if AsApplication(c, cmd) then ObeysApplication(c, cmd) else ObeysPlain(c, cmd)
  }

  /** The host may send the command: the card obeys it, and takes it for what the host means. */
  predicate Legal(c: Card, cmd: Command) {
    AsApplication(c, cmd) == cmd.app && Obeys(c, cmd)
  }

  /** The blocks from lo on, before end, all hold the erased byte. */
  function Erased(b: seq<nat>, lo: nat, end: nat, byte: nat): (r: seq<nat>)
    ensures |r| == |b|
    ensures forall k :: 0 <= k < |b| ==> r[k] == if lo <= k < end then byte else b[k]
  {
    seq(|b|, k requires 0 <= k < |b| => if lo <= k < end then byte else b[k])
  }

  /** A power-up poll: with the high-capacity bit (30) the card becomes ready after a while, and accepts
      1.8 V when it can and is asked to (bit 24). */
  function AfterOpCond(c: Card, arg: nat): Card {
    if Inquiry(arg) || !Bit(arg, 30) then c
    else if c.polls > 0 then c.(polls := c.polls - 1)
    else c.(state := Ready, accepted := c.info.uhs && !c.low && Bit(arg, 24))
  }

  /** The function of group 1 a CMD6 asks for; 15 asks for no change, and is also the answer to a
      function the card does not switch to. */
  function FunctionAnswer(c: Card, arg: nat): nat {
    if arg % 16 == 15 then c.speed else if arg % 16 in c.info.functions then arg % 16 else 15
  }

  /** A switch in mode 1 (bit 31) takes place in each group if the card knows the function. */
  function AfterSwitch(c: Card, arg: nat): Card {
    if arg / 0x8000_0000 % 2 == 0 then c
    else
      c.(speed := if FunctionAnswer(c, arg) != 15 then FunctionAnswer(c, arg) else c.speed,
         driver := if arg / 0x100 % 16 in c.info.drivers && arg / 0x100 % 16 != 15 then arg / 0x100 % 16 else c.driver)
  }

  function AfterApplication(c: Card, cmd: Command): Card {
    if cmd.index == 41 then AfterOpCond(c, cmd.arg)
    else if cmd.index == 6 then c.(width := if cmd.arg % 4 == 2 then 4 else 1)
    else c
  }

  function AfterPlain(c: Card, cmd: Command): Card {
    match cmd.index
    case 0 =>
      c.(state := Idle, rca := 0, polls := c.info.powerUp, accepted := false, width := 1, speed := 0, driver := 0,
         busy := 0)
    case 55 => c.(app := true)
    case 11 => c.(low := true)
    case 2 => c.(state := Ident)
    case 3 => c.(state := Stby, rca := c.info.newRca)
    case 7 => c.(state := Tran)
    case 13 => if c.busy > 1 then c.(busy := c.busy - 1)
               else c.(busy := 0, state := if c.state == Prg then Tran else c.state)
    case 6 => AfterSwitch(c, cmd.arg)
    case 18 => c.(state := Data)
    case 12 => c.(state := Tran)
    case 32 => c.(eraseFrom := Some(cmd.arg), eraseTo := None)
    case 33 => c.(eraseTo := Some(cmd.arg))
    case 38 =>
      if c.eraseFrom.Some? && c.eraseTo.Some? then
        c.(state := if c.info.eraseTime > 0 then Prg else Tran, busy := c.info.eraseTime,
           eraseFrom := None, eraseTo := None,
           blocks := Erased(c.blocks, c.eraseFrom.value, c.eraseTo.value + 1, c.info.erasedByte))
      else c
    case _ => c
  }

  /** The card after a command that has reached it. Whatever it is ends the wait for an application
      command, and, unless it belongs to one or asks for the status, an erase sequence. */
  function Next(c: Card, cmd: Command): Card {
    var d := if cmd.index in {13, 32, 33, 38} then c.(app := false)
             else c.(app := false, eraseFrom := None, eraseTo := None);
    if !Obeys(c, cmd) then d
    else if AsApplication(c, cmd) then AfterApplication(d, cmd)
    else AfterPlain(d, cmd)
  }

  lemma ApplicationWellFormed(c: Card, cmd: Command)
    requires WellFormed(c) && c.busy == 0
    ensures WellFormed(AfterApplication(c, cmd))
  {
    hide Inquiry, Bit;
  }

  lemma PlainWellFormed(c: Card, cmd: Command)
    requires WellFormed(c) && (c.busy == 0 || cmd.index in {0, 13, 55})
    ensures WellFormed(AfterPlain(c, cmd))
  {
    hide FunctionAnswer, Erased;
    if cmd.index == 6 {
    } else if cmd.index == 38 {
    } else {
    }
  }

  lemma NextWellFormed(c: Card, cmd: Command)
    requires WellFormed(c)
    ensures WellFormed(Next(c, cmd))
  {
    hide Inquiry, Compatible, Bit, AppDefined, AfterPlain, AfterApplication;
    var d := if cmd.index in {13, 32, 33, 38} then c.(app := false)
             else c.(app := false, eraseFrom := None, eraseTo := None);
    if Obeys(c, cmd) && AsApplication(c, cmd) {
      ApplicationWellFormed(d, cmd);
    } else if Obeys(c, cmd) {
      PlainWellFormed(d, cmd);
    }
  }

  datatype Response =
    | Status(state: State, ready: bool)
    | Ocr(window: nat, poweredUp: bool, ccs: bool, s18a: bool)
    | Published(rca: nat)
    | Echo(pattern: nat)
    | CsdRegister(csd: Csd)
    | ScrRegister(scr: Scr)
    | Functions(modes: Modes, speed: nat)
    | Other

  /** What the card answers, having obeyed the command. */
  function Answer(c: Card, cmd: Command): Response {
    var d := Next(c, cmd);
    if cmd.index == 13 then Status(d.state, d.busy == 0)
    else if AsApplication(c, cmd) then
      if cmd.index == 41 then Ocr(c.info.window, d.state == Ready, d.state == Ready, d.accepted)
      else if cmd.index == 51 then ScrRegister(c.info.scr)
      else Other
    else if cmd.index == 3 then Published(d.rca)
    else if cmd.index == 8 then Echo(cmd.arg % 0x100)
    else if cmd.index == 9 then CsdRegister(c.info.csd)
    else if cmd.index == 6 then Functions(c.info.modes, FunctionAnswer(c, cmd.arg))
    else Other
  }

  /** How many blocks of data follow a command the card obeys. */
  function Follow(c: Card, cmd: Command): nat {
    if AsApplication(c, cmd) then if cmd.index == 13 || cmd.index == 51 then 1 else 0
    else if cmd.index == 6 || cmd.index == 17 || cmd.index == 19 then 1
    else if cmd.index == 18 && cmd.arg < c.info.capacity then c.info.capacity - cmd.arg
    else 0
  }

  /** The host gets its answer, and all the data it asked for. To CMD8 the card answers only when it is
      told of a supply of 2.7 to 3.6 V (bits 8 to 11). */
  predicate Heard(c: Card, cmd: Command) {
    Obeys(c, cmd) && cmd.count <= Follow(c, cmd) && (cmd.index == 8 ==> cmd.arg / 0x100 % 16 == 1)
  }

  /** The data read, block by block. */
  function DataOf(c: Card, cmd: Command): seq<nat> {
    if (cmd.index == 17 || cmd.index == 18) && cmd.arg + cmd.count <= |c.blocks|
    then c.blocks[cmd.arg..cmd.arg + cmd.count] else []
  }

  // ---------- the bus ----------

  /** A command may get lost on its way to the card, or its answer (or data) on the way back. */
  datatype Outcome = Delivered | CommandLost | AnswerLost

  datatype Entry = Entry(cmd: Command, outcome: Outcome)

  /** Argument of the CMD6 that switches to high speed. */
  const HIGH_SPEED_ARG: nat := 0x80FF_FFF1

  /** What a loss can mean for the driver: the three kinds it goes on behind, and all others. */
  datatype Loss = ScrRequest | StatusRequest | SpeedAnswer | Elsewhere

  function LossOf(e: Entry): set<Loss> {
    if e.outcome == Delivered then {}
    else if e.cmd.app && e.cmd.index == 51 && e.outcome == CommandLost then {ScrRequest}
    else if e.cmd.app && e.cmd.index == 13 && e.outcome == CommandLost then {StatusRequest}
    else if !e.cmd.app && e.cmd.index == 55 && e.cmd.announces == 13 && e.outcome == AnswerLost then {StatusRequest}
    else if e.cmd == Plain(6, HIGH_SPEED_ARG, 1) && e.outcome == AnswerLost then {SpeedAnswer}
    else {Elsewhere}
  }

  function Losses(log: seq<Entry>): set<Loss> {
    if log == [] then {} else Losses(log[..|log| - 1]) + LossOf(log[|log| - 1])
  }

  lemma LossesGrow(log: seq<Entry>, e: Entry)
    ensures Losses(log + [e]) == Losses(log) + LossOf(e)
  {
    assert (log + [e])[..|log|] == log;
  }

  /** The losses of a log are those of its entries. */
  lemma {:induction false} LossesOfEntries(log: seq<Entry>, loss: Loss)
    ensures loss in Losses(log) <==> exists k :: 0 <= k < |log| && loss in LossOf(log[k])
  {
    if log != [] {
      var n := |log| - 1;
      LossesOfEntries(log[..n], loss);
      if loss in Losses(log[..n]) {
        var k :| 0 <= k < n && loss in LossOf(log[..n][k]);
        assert loss in LossOf(log[k]);
      } else if k :| 0 <= k < |log| && loss in LossOf(log[k]) {
        assert k < n ==> loss in LossOf(log[..n][k]);
      }
    }
  }

  /** The card on its bus. What becomes of the n-th command is up to the bus and may depend on the
      command; `legal` says whether all commands sent so far were. */
  class Bus {
    const fate: (nat, Command) -> Outcome
    var card: Card
    var log: seq<Entry>
    var legal: bool

    constructor (fate: (nat, Command) -> Outcome, card: Card)
      requires WellFormed(card)
      ensures this.fate == fate && this.card == card && log == [] && legal && Valid()
    {
      this.fate, this.card, log, legal := fate, card, [], true;
    }

    predicate Valid()
      reads this
    {
      WellFormed(card) && forall k :: 0 <= k < |log| ==> log[k].outcome == fate(k, log[k].cmd)
    }

    function Lost(): set<Loss>
      reads this
    {
      Losses(log)
    }

    /** send_cmd: it fails when the command or its answer is lost, or the card does not give the answer
        or the data. */
    method Send(cmd: Command) returns (ok: bool, answer: Response, data: seq<nat>)
      requires Valid()
      modifies this
      ensures Valid() && log == old(log) + [Entry(cmd, fate(|old(log)|, cmd))]
      ensures Lost() == old(Lost()) + LossOf(Entry(cmd, fate(|old(log)|, cmd)))
      ensures legal == (old(legal) && Legal(old(card), cmd))
      ensures card == if fate(|old(log)|, cmd) == CommandLost then old(card) else Next(old(card), cmd)
      ensures ok <==> fate(|old(log)|, cmd) == Delivered && Heard(old(card), cmd)
      ensures ok ==> answer == Answer(old(card), cmd) && data == DataOf(old(card), cmd)
    {
      hide Next, Legal, WellFormed, Answer, DataOf, Heard, Losses, LossOf;
      var outcome := fate(|log|, cmd);
      ok, answer, data := outcome == Delivered && Heard(card, cmd), Other, [];
      legal := legal && Legal(card, cmd);
      if ok {
        answer, data := Answer(card, cmd), DataOf(card, cmd);
      }
      if outcome != CommandLost {
        NextWellFormed(card, cmd);
        card := Next(card, cmd);
      }
      LossesGrow(log, Entry(cmd, outcome));
      log := log + [Entry(cmd, outcome)];
    }
  }
}
