/** What single commands of the driver do to the card of SdCard, in the states between which the driver
    moves it. */
module SdCommands {
  import opened MachineWords
  import opened Options
  import opened SdCard

  // ---------- states between the commands ----------

  /** A card after power-up, and again after every CMD0. */
  predicate PoweredUp(c: Card) {
    && WellFormed(c) && c.state == Idle && !c.app && c.rca == 0 && c.polls == c.info.powerUp
    && !c.accepted && c.width == 1 && c.speed == 0 && c.driver == 0 && c.busy == 0
  }

  predicate SameCard(c: Card, d: Card) {
    d.info == c.info && d.blocks == c.blocks && d.low == c.low
  }

  /** Nothing has changed but which commands may come next. */
  predicate Alike(c: Card, d: Card) {
    SameCard(c, d) && d.width == c.width && d.speed == c.speed && d.driver == c.driver && d.rca == c.rca
  }

  /** The losses now are those before, and perhaps some of `more`. */
  predicate Adds(before: set<Loss>, now: set<Loss>, more: set<Loss>) {
    before <= now <= before + more
  }

  // ---------- single commands in the transfer state ----------

  lemma StatusRead(c: Card, cmd: Command)
    requires cmd == Plain(13, c.rca * TWO16, 0) && Selected(c) && (c.app ==> c.state == Tran && c.busy == 0)
    ensures Legal(c, cmd) == !c.app && Heard(c, cmd)
    ensures Alike(c, Next(c, cmd)) && !Next(c, cmd).app && Next(c, cmd).busy == (if c.busy > 1 then c.busy - 1 else 0)
    ensures Next(c, cmd).state == if c.state == Prg && c.busy <= 1 then Tran else c.state
    ensures Answer(c, cmd) == Status(Next(c, cmd).state, Next(c, cmd).busy == 0)
    ensures forall o: Outcome :: LossOf(Entry(cmd, o)) == if o == Delivered then {} else {Elsewhere}
  {
  }

  lemma Announced(c: Card, cmd: Command)
    requires c.state == Tran && cmd == Announce(cmd.announces, c.rca * TWO16)
    ensures Legal(c, cmd) && Heard(c, cmd)
    ensures Next(c, cmd) == c.(app := true, eraseFrom := None, eraseTo := None)
    ensures forall o: Outcome :: LossOf(Entry(cmd, o)) == if o == Delivered then {}
            else if o == AnswerLost && cmd.announces == 13 then {StatusRequest} else {Elsewhere}
  {
  }

  /** An application command reaches a card that expects one. */
  lemma Applied(c: Card, cmd: Command)
    requires c.state == Tran && c.app
    requires cmd == Application(6, 2, 0) || cmd == Application(13, 0, 1) || cmd == Application(51, 0, 1)
    ensures Legal(c, cmd) && Heard(c, cmd)
    ensures Alike(c, Next(c, cmd).(width := c.width)) && Next(c, cmd).width == if cmd.index == 6 then 4 else c.width
    ensures !Next(c, cmd).app && Next(c, cmd).state == c.state && Next(c, cmd).busy == c.busy
    ensures cmd.index == 51 ==> Answer(c, cmd) == ScrRegister(c.info.scr)
    ensures forall o: Outcome :: LossOf(Entry(cmd, o)) == if o == Delivered then {}
            else if o == AnswerLost || cmd.index == 6 then {Elsewhere}
            else if cmd.index == 51 then {ScrRequest} else {StatusRequest}
  {
  }

  /** A switch command is taken for a bus width command by a card that expects an application command;
      the host then misses the data. */
  lemma SwitchSent(c: Card, cmd: Command)
    requires c.state == Tran && c.info.csd.switch && cmd == Plain(6, cmd.arg, 1)
    requires c.app ==> cmd.arg % 4 == 0
    ensures Legal(c, cmd) == Heard(c, cmd) == !c.app
    ensures SameCard(c, Next(c, cmd)) && Next(c, cmd).rca == c.rca && !Next(c, cmd).app
    ensures Next(c, cmd).state == c.state && Next(c, cmd).busy == c.busy
    ensures !c.app ==> Next(c, cmd).width == c.width && Next(c, cmd).speed == AfterSwitch(c, cmd.arg).speed
    ensures !c.app ==> Next(c, cmd).driver == AfterSwitch(c, cmd.arg).driver
    ensures c.app ==> Next(c, cmd).speed == c.speed && Next(c, cmd).driver == c.driver
    ensures !c.app ==> Answer(c, cmd) == Functions(c.info.modes, FunctionAnswer(c, cmd.arg))
  {
  }

  /** A read of several blocks is an application command to a card that expects one, and gets no answer
      (ACMD18 is reserved for the security extension); a read of one block is not. */
  lemma ReadSent(c: Card, cmd: Command)
    requires c.state == Tran && cmd.count > 0 && cmd.arg + cmd.count <= c.info.capacity && WellFormed(c)
    requires cmd == Plain(if cmd.count > 1 then 18 else 17, cmd.arg, cmd.count)
    ensures Legal(c, cmd) == Heard(c, cmd) == !(c.app && cmd.count > 1)
    ensures Alike(c, Next(c, cmd)) && !Next(c, cmd).app && Next(c, cmd).busy == c.busy
    ensures Next(c, cmd).state == if cmd.count > 1 && !c.app then Data else Tran
    ensures DataOf(c, cmd) == c.blocks[cmd.arg..cmd.arg + cmd.count]
    ensures forall o: Outcome :: LossOf(Entry(cmd, o)) == if o == Delivered then {} else {Elsewhere}
  {
  }

  lemma StopSent(c: Card, cmd: Command)
    requires c.state == Data && !c.app && c.busy == 0 && cmd == Plain(12, 0, 0)
    ensures Legal(c, cmd) && Heard(c, cmd) && Alike(c, Next(c, cmd))
    ensures Next(c, cmd).state == Tran && Next(c, cmd).busy == 0 && !Next(c, cmd).app
    ensures forall o: Outcome :: LossOf(Entry(cmd, o)) == if o == Delivered then {} else {Elsewhere}
  {
  }

  /** CMD32, CMD33 and CMD38; the first is no application command either. */
  lemma EraseSent(c: Card, cmd: Command)
    requires c.state == Tran && c.busy == 0
    requires || (cmd == Plain(32, cmd.arg, 0) && cmd.arg < c.info.capacity)
             || (cmd == Plain(33, cmd.arg, 0) && !c.app
                 && c.eraseFrom.Some? && c.eraseFrom.value <= cmd.arg < c.info.capacity)
             || (cmd == Plain(38, 0, 0) && !c.app && c.eraseFrom.Some? && c.eraseTo.Some?)
    ensures Legal(c, cmd) && Heard(c, cmd)
    ensures cmd.index == 32 ==> Next(c, cmd) == c.(app := false, eraseFrom := Some(cmd.arg), eraseTo := None)
    ensures cmd.index == 33 ==> Next(c, cmd) == c.(eraseTo := Some(cmd.arg))
    ensures cmd.index == 38 ==>
              Next(c, cmd) == c.(state := if c.info.eraseTime > 0 then Prg else Tran, busy := c.info.eraseTime,
                                 eraseFrom := None, eraseTo := None,
                                 blocks := Erased(c.blocks, c.eraseFrom.value, c.eraseTo.value + 1, c.info.erasedByte))
    ensures forall o: Outcome :: LossOf(Entry(cmd, o)) == if o == Delivered then {} else {Elsewhere}
  {
    hide Erased;
  }

  // ---------- single commands before it ----------

  /** A powered-up card that has been polled some times. */
  predicate Polled(c: Card) {
    PoweredUp(c.(polls := c.info.powerUp))
  }

  lemma InquiryAnnounced(c: Card, cmd: Command)
    requires Polled(c) && cmd == Announce(41, 0)
    ensures Legal(c, cmd) && Heard(c, cmd)
    ensures Next(c, cmd) == c.(app := true, eraseFrom := None, eraseTo := None)
    ensures forall o: Outcome :: LossOf(Entry(cmd, o)) == if o == Delivered then {} else {Elsewhere}
  {
  }

  /** A poll: the card gives its window, is one poll closer to the end, or ready. */
  lemma OpCondSent(c: Card, cmd: Command)
    requires c.app && Polled(c.(app := false)) && cmd == Application(41, cmd.arg, 0)
    requires Inquiry(cmd.arg) || Compatible(cmd.arg, c.info.window)
    ensures Legal(c, cmd) && Heard(c, cmd) && SameCard(c, Next(c, cmd))
    ensures Next(c, cmd).state == Idle ==> Polled(Next(c, cmd))
    ensures Next(c, cmd).state == Idle ==>
              Next(c, cmd).polls == if Inquiry(cmd.arg) || !Bit(cmd.arg, HCS) then c.polls else c.polls - 1
    ensures Next(c, cmd).state != Idle ==>
              && !Inquiry(cmd.arg) && Bit(cmd.arg, HCS) && c.polls == 0
              && Next(c, cmd) == c.(app := false, state := Ready, eraseFrom := None, eraseTo := None,
                                    accepted := c.info.uhs && !c.low && Bit(cmd.arg, S18R))
    ensures Answer(c, cmd) ==
            var ready := Next(c, cmd).state == Ready; Ocr(c.info.window, ready, ready, Next(c, cmd).accepted)
    ensures forall o: Outcome :: LossOf(Entry(cmd, o)) == if o == Delivered then {} else {Elsewhere}
  {
    hide Bit, Compatible;
  }

  /** CMD2, CMD3, CMD9 and CMD7, one after the other. */
  lemma IdentitySent(c: Card, cmd: Command)
    requires !c.app && c.busy == 0
    requires || (c.state == Ready && cmd == Plain(2, 0, 0)) || (c.state == Ident && cmd == Plain(3, 0, 0))
             || (c.state == Stby && (cmd == Plain(9, c.rca * TWO16, 0) || cmd == Plain(7, c.rca * TWO16, 0)))
    ensures Legal(c, cmd) && Heard(c, cmd) && Alike(c, Next(c, cmd).(rca := c.rca))
    ensures !Next(c, cmd).app && Next(c, cmd).busy == 0
    ensures Next(c, cmd).state == (match cmd.index case 2 => Ident case 7 => Tran case _ => Stby)
    ensures Next(c, cmd).rca == if cmd.index == 3 then c.info.newRca else c.rca
    ensures cmd.index == 3 ==> Answer(c, cmd) == Published(c.info.newRca)
    ensures cmd.index == 9 ==> Answer(c, cmd) == CsdRegister(c.info.csd)
    ensures forall o: Outcome :: LossOf(Entry(cmd, o)) == if o == Delivered then {} else {Elsewhere}
  {
  }
}
