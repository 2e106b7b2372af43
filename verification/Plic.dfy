/** Interrupt masking, registration and dispatch of common/system.c over a model of the platform-level
    interrupt controller. */
module Plic {
  import opened MachineWords

  const NUM_IRQ: nat := 256
  const FIRST_IRQ: nat := 16
  const HIGHEST: nat := 7

  type Irq = i: nat | i < 256

  /** A handler is known by its address; address 0 is none. */
  const NULL: nat := 0

  // ---------- enable bits ----------

  function SetBit(x: Word, b: nat): Word
    requires b < 32
  {
    Pow2Below(b, 32);
    Pow2Widths();
    BitwiseWord(Or, x, Pow2(b));
    Bitwise(Or, x, Pow2(b))
  }

  function ClearBit(x: Word, b: nat): Word
    requires b < 32
  {
    Pow2Below(b, 32);
    Pow2Widths();
    BitwiseWord(And, x, TWO32 - 1 - Pow2(b));
    Bitwise(And, x, TWO32 - 1 - Pow2(b))
  }

  lemma BitsAfter(x: Word, b: nat, k: nat)
    requires b < 32 && k < 32
    ensures Bit(SetBit(x, b), k) == (k == b || Bit(x, k))
    ensures Bit(ClearBit(x, b), k) == (k != b && Bit(x, k))
  {
    hide Bitwise, Bit, Pow2;
    Pow2Widths();
    Pow2Below(b, 32);
    BitOfBitwise(Or, x, Pow2(b), k);
    BitOfPow2(b, k);
    BitOfHole(32, b, k);
    BitOfBitwise(And, x, TWO32 - 1 - Pow2(b), k);
  }

  /** The enable bit of a source in the words of the enable registers. */
  predicate EnableBit(words: seq<Word>, irq: nat)
    requires |words| == 8 && irq < NUM_IRQ
  {
    Bit(words[irq / 32], irq % 32)
  }

  /** The words after the read-modify-write of one enable bit. */
  function WithEnable(words: seq<Word>, irq: Irq, on: bool): (r: seq<Word>)
    requires |words| == 8
    ensures |r| == 8
  {
    var value := words[irq / 32];
    words[irq / 32 := if on then SetBit(value, irq % 32) else ClearBit(value, irq % 32)]
  }

  lemma OneEnableChanges(words: seq<Word>, irq: Irq, on: bool)
    requires |words| == 8
    ensures forall i: Irq :: EnableBit(WithEnable(words, irq, on), i) == if i == irq then on else EnableBit(words, i)
  {
    hide SetBit, ClearBit, Bit;
    forall i: Irq
      ensures EnableBit(WithEnable(words, irq, on), i) == if i == irq then on else EnableBit(words, i)
    {
      BitsAfter(words[irq / 32], irq % 32, i % 32);
    }
  }

  // ---------- what a history of calls means ----------

  /** An entry of g_irq_action. */
  datatype Entry = Entry(handler: nat, irqn: nat, priv: nat)

  datatype Event =
    | Registered(irq: Irq, handler: nat, priv: nat)
    | Masked(irq: Irq)
    | Unmasked(irq: Irq)
    | Claimed(irq: Irq)
    | Dispatched(handler: nat, irqn: nat, priv: nat)
    | Missing(irq: Irq)
    | Completed(irq: Irq)

  /** Sources below 16 are never unmasked; the others are as last asked for. */
  predicate EnabledBy(t: seq<Event>, irq: Irq) {
    && t != []
    && var e, rest := t[|t| - 1], t[..|t| - 1];
       if e == Unmasked(irq) then irq >= FIRST_IRQ
       else e != Masked(irq) && EnabledBy(rest, irq)
  }

  function LastEntry(t: seq<Event>, irq: Irq): Entry {
    if t == [] then Entry(NULL, 0, 0)
    else
      var e := t[|t| - 1];
      if e.Registered? && e.irq == irq then Entry(e.handler, irq, e.priv) else LastEntry(t[..|t| - 1], irq)
  }

  /** How far the service of a claim has come: every claimed source is handed, once, to the handler
      last registered for it, with its number and its private data (or to none, when there is none),
      and is then completed before anything else is claimed. */
  datatype Phase = Ready | Took(irq: Irq) | Handled(irq: Irq) | Wrong

  function PhaseOf(t: seq<Event>): Phase {
    if t == [] then Ready
    else
      var e, rest := t[|t| - 1], t[..|t| - 1];
      var p := PhaseOf(rest);
      match e
      case Claimed(irq) => if p != Ready then Wrong else if irq == 0 then Ready else Took(irq)
      case Dispatched(h, irq, priv) =>
        if p.Took? && h != NULL && Entry(h, irq, priv) == LastEntry(rest, p.irq) && irq == p.irq
        then Handled(p.irq) else Wrong
      case Missing(irq) => if p == Took(irq) && LastEntry(rest, irq).handler == NULL then Handled(irq) else Wrong
      case Completed(irq) => if p == Handled(irq) then Ready else Wrong
      case _ => if p.Took? then Wrong else p
  }

  function Count(t: seq<Event>, e: Event): nat {
    if t == [] then 0 else Count(t[..|t| - 1], e) + (if t[|t| - 1] == e then 1 else 0)
  }

  /** In a history that keeps to the phases every claim of a source is completed exactly once, except
      for one still being served. */
  lemma {:induction false} ClaimsCompleted(t: seq<Event>, irq: Irq)
    requires irq != 0 && PhaseOf(t) != Wrong
    ensures Count(t, Claimed(irq)) ==
            Count(t, Completed(irq)) + (if PhaseOf(t) in {Took(irq), Handled(irq)} then 1 else 0)
  {
    if t != [] {
      ClaimsCompleted(t[..|t| - 1], irq);
    }
  }

  /** What one more event adds to a history. */
  lemma Extend(t: seq<Event>, e: Event, i: Irq)
    ensures EnabledBy(t + [e], i) ==
            if e == Unmasked(i) then i >= FIRST_IRQ else e != Masked(i) && EnabledBy(t, i)
    ensures LastEntry(t + [e], i) ==
            if e.Registered? && e.irq == i then Entry(e.handler, i, e.priv) else LastEntry(t, i)
    ensures PhaseOf(t) != Ready || !(e.Registered? || e.Masked? || e.Unmasked?) || PhaseOf(t + [e]) == Ready
    ensures PhaseOf(t).Handled? && (e.Registered? || e.Masked? || e.Unmasked?) ==> PhaseOf(t + [e]) == PhaseOf(t)
  {
    assert (t + [e])[..|t + [e]| - 1] == t;
  }

  lemma ExtendAll(t: seq<Event>, e: Event)
    ensures forall i: Irq ::
              EnabledBy(t + [e], i) ==
              if e == Unmasked(i) then i >= FIRST_IRQ else e != Masked(i) && EnabledBy(t, i)
    ensures forall i: Irq ::
              LastEntry(t + [e], i) ==
              if e.Registered? && e.irq == i then Entry(e.handler, i, e.priv) else LastEntry(t, i)
  {
    forall i: Irq
      ensures EnabledBy(t + [e], i) ==
              if e == Unmasked(i) then i >= FIRST_IRQ else e != Masked(i) && EnabledBy(t, i)
      ensures LastEntry(t + [e], i) ==
              if e.Registered? && e.irq == i then Entry(e.handler, i, e.priv) else LastEntry(t, i)
    {
      Extend(t, e, i);
    }
  }

  // ---------- the controller and the driver ----------

  /** What a handler does, as far as the interrupt controller can tell. */
  datatype Call =
    | Request(irqn: nat, handler: nat, priv: nat)
    | Enable(irq: Irq)
    | Disable(irq: Irq)

  /** Whether source i is enabled after the calls, when it was before as `on` says. */
  predicate EnabledAfter(calls: seq<Call>, i: Irq, on: bool) {
    if calls == [] then on
    else
      var before := EnabledAfter(calls[..|calls| - 1], i, on);
      if i < FIRST_IRQ then before
      else
        match calls[|calls| - 1]
        case Request(irqn, _, _) => before || irqn == i
        case Enable(j) => before || j == i
        case Disable(j) => before && j != i
  }

  /** The calls a handler makes when it is dispatched as the event at the given place of the history. */
  type Body = (nat, nat) -> seq<Call>

  /** The handler dispatched as the last event of a history leaves its own source disabled. */
  predicate Masks(t: seq<Event>, body: Body)
    requires t != []
  {
    var e := t[|t| - 1];
    e.Dispatched? && e.irqn < NUM_IRQ && !EnabledAfter(body(|t| - 1, e.handler), e.irqn, true)
  }

  /** The sources whose handler left them disabled, among those dispatched from event `from` on. */
  function Stuck(t: seq<Event>, from: nat, body: Body): set<Irq> {
    if |t| <= from then {}
    else Stuck(t[..|t| - 1], from, body) + if Masks(t, body) then {t[|t| - 1].irqn} else {}
  }

  /** Two stretches of history in a row. */
  lemma {:induction false} Onwards(u: seq<Event>, from: nat, mid: nat, body: Body)
    requires from <= mid <= |u|
    ensures Stuck(u, from, body) == Stuck(u[..mid], from, body) + Stuck(u, mid, body)
  {
    if |u| == mid {
      assert u[..mid] == u;
    } else {
      Onwards(u[..|u| - 1], from, mid, body);
      assert u[..|u| - 1][..mid] == u[..mid];
    }
  }

  lemma OneMore(t: seq<Event>, from: nat, e: Event, body: Body)
    requires from <= |t|
    ensures Stuck(t + [e], from, body) ==
            Stuck(t, from, body) + if Masks(t + [e], body) then {e.irqn} else {}
  {
    assert (t + [e])[..|t|] == t;
  }

  /** Every handler dispatched has left its own source enabled. */
  ghost predicate AllKeep(t: seq<Event>, from: nat, body: Body) {
    forall k :: from <= k < |t| && t[k].Dispatched? && t[k].irqn < NUM_IRQ ==>
      EnabledAfter(body(k, t[k].handler), t[k].irqn, true)
  }

  lemma {:induction false} NoneStuck(t: seq<Event>, from: nat, body: Body)
    ensures Stuck(t, from, body) == {} <==> AllKeep(t, from, body)
  {
    if |t| > from {
      var rest := t[..|t| - 1];
      NoneStuck(rest, from, body);
      assert forall k :: from <= k < |rest| ==> rest[k] == t[k];
    }
  }

  lemma NothingYet(t: seq<Event>, body: Body)
    ensures Stuck(t, |t|, body) == {}
  {
  }

  predicate CanClaim(pending: set<Irq>, enable: seq<Word>, priority: seq<nat>, i: Irq)
    requires |enable| == 8 && |priority| == NUM_IRQ
  {
    i > 0 && i in pending && EnableBit(enable, i) && priority[i] > 0
  }

  /** Of the sources that can be claimed the one with the highest priority, and of these the lowest. */
  predicate FirstChoice(pending: set<Irq>, enable: seq<Word>, priority: seq<nat>, i: Irq)
    requires |enable| == 8 && |priority| == NUM_IRQ
  {
    && CanClaim(pending, enable, priority, i)
    && forall j: Irq :: CanClaim(pending, enable, priority, j) ==>
         priority[j] < priority[i] || (priority[j] == priority[i] && i <= j)
  }

  lemma OneFirstChoice(pending: set<Irq>, enable: seq<Word>, priority: seq<nat>, i: Irq)
    requires |enable| == 8 && |priority| == NUM_IRQ && FirstChoice(pending, enable, priority, i)
    ensures forall j: Irq :: FirstChoice(pending, enable, priority, j) ==> j == i
  {
  }

  class System {
    /** The calls each handler makes. */
    const body: Body
    const action: array<Entry>
    var enable: seq<Word>
    var priority: seq<nat>
    /** Sources asking for service, sources asking again while in service, sources in service. */
    var pending: set<Irq>
    var waiting: set<Irq>
    var inService: set<Irq>
    var trace: seq<Event>

    ghost predicate Valid()
      reads this, action
    {
      && action.Length == NUM_IRQ && |enable| == 8 && |priority| == NUM_IRQ
      && (forall i: Irq :: EnableBit(enable, i) == EnabledBy(trace, i))
      && (forall i: Irq :: action[i] == LastEntry(trace, i))
      && waiting <= inService && pending !! inService
    }

    predicate Claimable(i: Irq)
      reads this
      requires |enable| == 8 && |priority| == NUM_IRQ
    {
      CanClaim(pending, enable, priority, i)
    }

    /** The source that is claimed next. */
    predicate IsNext(i: Irq)
      reads this
      requires |enable| == 8 && |priority| == NUM_IRQ
    {
      FirstChoice(pending, enable, priority, i)
    }

    /** irq_init. */
    constructor (body: Body)
      ensures this.body == body && Valid() && trace == [] && PhaseOf(trace) == Ready
      ensures fresh(action) && pending == {} && waiting == {} && inService == {}
      ensures forall i: Irq :: priority[i] == 0 && !EnableBit(enable, i)
    {
      this.body := body;
      action := new Entry[NUM_IRQ](_ => Entry(NULL, 0, 0));
      enable := seq(8, _ => 0);
      priority := seq(NUM_IRQ, _ => 0);
      pending, waiting, inService := {}, {}, {};
      trace := [];
      new;
      forall i: Irq
        ensures !EnableBit(enable, i)
      {
        BitOfZero(i % 32);
      }
    }

    /** plic_mask_irq. */
    method MaskIrq(irq: Irq)
      requires Valid()
      modifies this`enable, this`trace
      ensures Valid() && trace == old(trace) + [Masked(irq)]
      ensures forall i: Irq :: EnableBit(enable, i) == (old(EnableBit(enable, i)) && (irq < 16 || i != irq))
    {
      hide EnableBit, EnabledBy, LastEntry, WithEnable;
      NeverEnabled(trace);
      ExtendAll(trace, Masked(irq));
      OneEnableChanges(enable, irq, false);
      trace := trace + [Masked(irq)];
      if irq < FIRST_IRQ {
        return;
      }
      enable := WithEnable(enable, irq, false);
    }

    /** plic_unmask_irq. */
    method UnmaskIrq(irq: Irq)
      requires Valid()
      modifies this`enable, this`trace
      ensures Valid() && trace == old(trace) + [Unmasked(irq)]
      ensures forall i: Irq :: EnableBit(enable, i) == (old(EnableBit(enable, i)) || (irq >= 16 && i == irq))
    {
      hide EnableBit, EnabledBy, LastEntry, WithEnable;
      NeverEnabled(trace);
      ExtendAll(trace, Unmasked(irq));
      OneEnableChanges(enable, irq, true);
      trace := trace + [Unmasked(irq)];
      if irq < FIRST_IRQ {
        return;
      }
      enable := WithEnable(enable, irq, true);
    }

    method RequestIrq(irqn: nat, handler: nat, priv: nat) returns (r: int)
      requires Valid()
      modifies this`enable, this`trace, this`priority, action
      ensures Valid()
      ensures r == if irqn < 256 then 0 else -1
      ensures r != 0 ==> trace == old(trace) && action[..] == old(action[..]) && enable == old(enable)
                         && priority == old(priority)
      ensures r == 0 ==>
                && trace == old(trace) + [Registered(irqn, handler, priv)] + [Unmasked(irqn)]
                && action[..] == old(action[..])[irqn := Entry(handler, irqn, priv)]
                && priority == old(priority)[irqn := 7]
      ensures forall i: Irq :: EnableBit(enable, i) == (old(EnableBit(enable, i)) || (i >= 16 && i == irqn))
    {
      hide EnableBit, EnabledBy, LastEntry;
      if irqn >= NUM_IRQ {
        return -1;
      }
      action[irqn] := Entry(handler, irqn, priv);
      ExtendAll(trace, Registered(irqn, handler, priv));
      trace := trace + [Registered(irqn, handler, priv)];
      priority := priority[irqn := HIGHEST];
      UnmaskIrq(irqn);
      r := 0;
    }

    /** A source raises its interrupt line; during its own service the gateway holds the request. */
    method Raise(i: Irq)
      requires Valid()
      modifies this`pending, this`waiting
      ensures Valid()
      ensures old(i in inService) ==> pending == old(pending) && waiting == old(waiting) + {i}
      ensures old(i !in inService) ==> pending == old(pending) + {i} && waiting == old(waiting)
    {
      if i in inService {
        waiting := waiting + {i};
      } else {
        pending := pending + {i};
      }
    }

    /** A read of the claim register: of the sources to serve the one with the highest priority, and
        of these the lowest; 0 when there is none. */
    method Claim() returns (irq: Irq)
      requires Valid()
      modifies this`pending, this`inService, this`trace
      ensures Valid() && trace == old(trace) + [Claimed(irq)]
      ensures irq == 0 <==> forall i: Irq :: !old(Claimable(i))
      ensures irq != 0 ==> irq in old(pending) && priority[irq] > 0 && EnableBit(enable, irq)
      ensures forall i: Irq :: i != 0 && i in old(pending) && priority[i] > 0 && EnableBit(enable, i) ==>
                irq != 0 && (priority[i] < priority[irq] || (priority[i] == priority[irq] && irq <= i))
      ensures irq != 0 ==> old(IsNext(irq)) && pending == old(pending) - {irq} && inService == old(inService) + {irq}
      ensures irq == 0 ==> pending == old(pending) && inService == old(inService) && forall i: Irq :: !Claimable(i)
    {
      hide EnableBit, EnabledBy, LastEntry;
      irq := 0;
      var i := 1;
      while i < NUM_IRQ
        invariant 1 <= i <= NUM_IRQ
        invariant irq != 0 ==> irq < i && Claimable(irq)
        invariant forall j: Irq :: j < i && Claimable(j) ==>
                    irq != 0 && (priority[j] < priority[irq] || (priority[j] == priority[irq] && irq <= j))
      {
        if Claimable(i) && (irq == 0 || priority[irq] < priority[i]) {
          irq := i;
        }
        i := i + 1;
      }
      ExtendAll(trace, Claimed(irq));
      trace := trace + [Claimed(irq)];
      if irq != 0 {
        pending, inService := pending - {irq}, inService + {irq};
      }
    }

    /** A write of the claim register; for a source that is not enabled it is ignored. */
    method Complete(irq: Irq)
      requires Valid()
      modifies this`pending, this`waiting, this`inService, this`trace
      ensures Valid() && trace == old(trace) + [Completed(irq)]
      ensures inService == if EnableBit(enable, irq) then old(inService) - {irq} else old(inService)
      ensures waiting == if EnableBit(enable, irq) then old(waiting) - {irq} else old(waiting)
      ensures pending == old(pending) + (if EnableBit(enable, irq) && irq in old(waiting) then {irq} else {})
    {
      hide EnableBit, EnabledBy, LastEntry;
      ExtendAll(trace, Completed(irq));
      trace := trace + [Completed(irq)];
      if EnableBit(enable, irq) {
        inService := inService - {irq};
        if irq in waiting {
          waiting, pending := waiting - {irq}, pending + {irq};
        }
      }
    }

    /** One call of a handler. */
    method MakeCall(call: Call)
      requires Valid()
      modifies this`enable, this`trace, this`priority, action
      ensures Valid() && old(trace) <= trace && Stuck(trace, |old(trace)|, body) == {}
      ensures PhaseOf(old(trace)).Handled? ==> PhaseOf(trace) == PhaseOf(old(trace))
      ensures forall i: Irq ::
                EnableBit(enable, i) ==
                if i < FIRST_IRQ then old(EnableBit(enable, i))
                else match call
                     case Request(irqn, _, _) => old(EnableBit(enable, i)) || irqn == i
                     case Enable(j) => old(EnableBit(enable, i)) || j == i
                     case Disable(j) => old(EnableBit(enable, i)) && j != i
    {
      hide EnableBit, EnabledBy, LastEntry, PhaseOf, Stuck, EnabledAfter;
      NothingYet(trace, body);
      match call {
        case Request(irqn, g, priv) =>
          if irqn < NUM_IRQ {
            Extend(trace, Registered(irqn, g, priv), 0);
            Extend(trace + [Registered(irqn, g, priv)], Unmasked(irqn), 0);
            OneMore(trace, |trace|, Registered(irqn, g, priv), body);
            OneMore(trace + [Registered(irqn, g, priv)], |trace|, Unmasked(irqn), body);
          }
          var _ := RequestIrq(irqn, g, priv);
        case Enable(i) =>
          Extend(trace, Unmasked(i), 0);
          OneMore(trace, |trace|, Unmasked(i), body);
          UnmaskIrq(i);
        case Disable(i) =>
          Extend(trace, Masked(i), 0);
          OneMore(trace, |trace|, Masked(i), body);
          MaskIrq(i);
      }
    }

    /** The calls of handler h, just dispatched, in order: it may register handlers and enable and disable
        any source. */
    method RunHandler(h: nat)
      requires Valid() && trace != []
      modifies this`enable, this`trace, this`priority, action
      ensures Valid() && old(trace) <= trace && Stuck(trace, |old(trace)|, body) == {}
      ensures PhaseOf(old(trace)).Handled? ==> PhaseOf(trace) == PhaseOf(old(trace))
      ensures forall i: Irq ::
                EnableBit(enable, i) == EnabledAfter(body(|old(trace)| - 1, h), i, old(EnableBit(enable, i)))
    {
      hide EnableBit, EnabledBy, LastEntry, PhaseOf, Stuck;
      NothingYet(trace, body);
      var calls := body(|trace| - 1, h);
      ghost var was := enable;
      var k := 0;
      while k < |calls|
        invariant 0 <= k <= |calls|
        invariant Valid() && old(trace) <= trace && Stuck(trace, |old(trace)|, body) == {}
        invariant PhaseOf(old(trace)).Handled? ==> PhaseOf(trace) == PhaseOf(old(trace))
        invariant forall i: Irq :: EnableBit(enable, i) == EnabledAfter(calls[..k], i, EnableBit(was, i))
      {
        var call := calls[k];
        ghost var mid := trace;
        assert calls[..k + 1][..k] == calls[..k];
        MakeCall(call);
        assert trace[..|mid|] == mid;
        Onwards(trace, |old(trace)|, |mid|, body);
        k := k + 1;
      }
      assert calls[..k] == calls;
    }

    method RaiseAll(arrivals: seq<Irq>)
      requires Valid()
      modifies this`pending, this`waiting
      ensures Valid()
      ensures pending == old(pending) + (set i | i in arrivals && i !in inService)
      ensures waiting == old(waiting) + (set i | i in arrivals && i in inService)
    {
      hide EnableBit, EnabledBy, LastEntry;
      for k := 0 to |arrivals|
        invariant Valid()
        invariant pending == old(pending) + (set i | i in arrivals[..k] && i !in inService)
        invariant waiting == old(waiting) + (set i | i in arrivals[..k] && i in inService)
      {
        assert arrivals[..k + 1] == arrivals[..k] + [arrivals[k]];
        Raise(arrivals[k]);
      }
    }

    /** The calls made when a source is dispatched as event k; without a handler there are none. */
    function CallsFor(irq: Irq, k: nat): seq<Call>
      reads this, action
      requires action.Length == NUM_IRQ
    {
      if action[irq].handler == NULL then [] else body(k, action[irq].handler)
    }

    /** The handler registered for a claimed source, or the complaint that there is none. */
    method Dispatch(irq: Irq)
      requires Valid() && irq != 0
      requires EnableBit(enable, irq) && PhaseOf(trace) == Took(irq)
      modifies this`enable, this`trace, this`priority, action
      ensures Valid() && old(trace) <= trace && PhaseOf(trace) == Handled(irq)
      ensures forall i: Irq ::
                EnableBit(enable, i) == EnabledAfter(old(CallsFor(irq, |trace|)), i, old(EnableBit(enable, i)))
      ensures Stuck(trace, |old(trace)|, body) == if EnableBit(enable, irq) then {} else {irq}
    {
      hide EnableBit, EnabledBy, LastEntry, PhaseOf, Stuck;
      NothingYet(trace, body);
      var entry := action[irq];
      if entry.handler != NULL {
        EntryIrq(trace, irq);
        Served(trace, irq, Dispatched(entry.handler, entry.irqn, entry.priv));
        OneMore(trace, |trace|, Dispatched(entry.handler, entry.irqn, entry.priv), body);
        trace := trace + [Dispatched(entry.handler, entry.irqn, entry.priv)];
        ghost var mid := trace;
        RunHandler(entry.handler);
        assert trace[..|mid|] == mid;
        Onwards(trace, |old(trace)|, |mid|, body);
      } else {
        Served(trace, irq, Missing(irq));
        OneMore(trace, |trace|, Missing(irq), body);
        trace := trace + [Missing(irq)];
      }
    }

    /** One round of do_irq behind its claim, while other sources (or the same one) may ask for
        service: dispatch to the handler, and completion. The source leaves service exactly when its
        handler has left it enabled. */
    method Serve(irq: Irq, arrivals: seq<Irq>)
      requires Valid() && irq != 0 && irq in inService && irq !in waiting
      requires EnableBit(enable, irq) && PhaseOf(trace) == Took(irq)
      modifies this`enable, this`trace, this`priority, this`pending, this`waiting, this`inService, action
      ensures Valid() && old(trace) <= trace && PhaseOf(trace) == Ready
      ensures inService == old(inService) - (if EnabledAfter(old(CallsFor(irq, |trace|)), irq, true) then {irq} else {})
      ensures Stuck(trace, |old(trace)|, body) ==
              if EnabledAfter(old(CallsFor(irq, |trace|)), irq, true) then {} else {irq}
      ensures old(pending) <= pending && (arrivals == [] ==> pending == old(pending))
      ensures forall i: Irq :: i in arrivals ==> i in pending || i in waiting
    {
      hide EnableBit, EnabledBy, LastEntry, PhaseOf, Stuck;
      Dispatch(irq);
      RaiseAll(arrivals);
      Finished(trace, irq);
      OneMore(trace, |old(trace)|, Completed(irq), body);
      Complete(irq);
    }

    /** The source claimed next, if its handler disables it. */
    function NextStuck(): set<Irq>
      reads this, action
      requires action.Length == NUM_IRQ && |enable| == 8 && |priority| == NUM_IRQ
    {
      set i: Irq | IsNext(i) && !EnabledAfter(CallsFor(i, |trace| + 1), i, true)
    }

    /** A claim, and when there is a source to serve the round behind it. */
    method Round(arrivals: seq<Irq>) returns (irq: Irq)
      requires Valid() && PhaseOf(trace) == Ready
      modifies this`enable, this`trace, this`priority, this`pending, this`waiting, this`inService, action
      ensures Valid() && old(trace) <= trace && PhaseOf(trace) == Ready && Claimed(irq) in trace[|old(trace)|..]
      ensures irq == 0 ==> (forall i: Irq :: !old(Claimable(i))) && forall i: Irq :: !Claimable(i)
      ensures irq == 0 ==> pending == old(pending) && inService == old(inService)
      ensures irq != 0 ==> old(IsNext(irq)) && irq in old(pending)
      ensures old(pending) - {irq} <= pending
      ensures irq != 0 && arrivals == [] ==> pending == old(pending) - {irq}
      ensures irq != 0 ==> forall i: Irq :: i in arrivals ==> i in pending || i in waiting
      ensures inService == old(inService) + Stuck(trace, |old(trace)|, body)
      ensures Stuck(trace, |old(trace)|, body) == old(NextStuck())
    {
      hide EnableBit, EnabledBy, LastEntry, PhaseOf, Stuck, EnabledAfter;
      irq := Claim();
      forall i: Irq
        ensures old(IsNext(i)) <==> i == irq != 0
      {
        if irq != 0 {
          OneFirstChoice(old(pending), enable, priority, irq);
        } else {
          assert !old(Claimable(i));
        }
      }
      ClaimPhase(old(trace), irq);
      NothingYet(old(trace), body);
      OneMore(old(trace), |old(trace)|, Claimed(irq), body);
      ghost var mid := trace;
      assert mid[|old(trace)|..] == [Claimed(irq)];
      if irq != 0 {
        Serve(irq, arrivals);
        assert trace[..|mid|] == mid;
        Onwards(trace, |old(trace)|, |mid|, body);
        assert trace[|old(trace)|] == Claimed(irq);
      }
    }

    /** do_irq. Between the rounds new requests arrive, round by round as `script` lists them. The sources
        it leaves in service are those whose handler disabled them: the controller ignores the completion
        of a disabled source, and never passes it on again. */
    method DoIrq(script: seq<seq<Irq>>)
      requires Valid() && PhaseOf(trace) == Ready
      modifies this`enable, this`trace, this`priority, this`pending, this`waiting, this`inService, action
      ensures Valid() && old(trace) <= trace && PhaseOf(trace) == Ready
      ensures forall i: Irq :: !Claimable(i)
      ensures forall i: Irq :: i in old(pending) && i !in pending ==> Claimed(i) in trace[|old(trace)|..]
      ensures inService == old(inService) + Stuck(trace, |old(trace)|, body)
      ensures inService == {} <==> old(inService) == {} && AllKeep(trace, |old(trace)|, body)
      ensures old(NextStuck()) <= inService
    {
      hide EnableBit, EnabledBy, LastEntry, PhaseOf, Stuck, EnabledAfter, FirstChoice, CanClaim, NextStuck;
      NothingYet(trace, body);
      var k := 0;
      while true
        invariant k >= 0 && old(trace) <= trace
        invariant Valid() && PhaseOf(trace) == Ready
        invariant forall i: Irq :: i in old(pending) && i !in pending ==> Claimed(i) in trace[|old(trace)|..]
        invariant inService == old(inService) + Stuck(trace, |old(trace)|, body)
        invariant if k == 0 then NextStuck() == old(NextStuck()) else old(NextStuck()) <= inService
        decreases if k < |script| then |script| - k else 0, |pending|
      {
        ghost var before := trace;
        var irq := Round(if k < |script| then script[k] else []);
        assert trace[..|before|] == before;
        Onwards(trace, |old(trace)|, |before|, body);
        assert trace[|old(trace)|..] == before[|old(trace)|..] + trace[|before|..];
        if irq == 0 {
          break;
        }
        k := k + 1;
      }
      NoneStuck(trace, |old(trace)|, body);
    }
  }

  /** Source 20 is raised, with a handler that makes the given calls. */
  method Interrupted(calls: seq<Call>) returns (inService: set<Irq>)
    ensures !EnabledAfter(calls, 20, true) ==> 20 in inService
    ensures (forall i: Irq :: EnabledAfter(calls, i, true)) ==> inService == {}
  {
    hide EnableBit, EnabledBy, LastEntry, Stuck, EnabledAfter;
    var system := new System((_, _) => calls);
    var _ := system.RequestIrq(20, 1, 0);
    system.Raise(20);
    assert system.IsNext(20);
    system.DoIrq([]);
    inService := system.inService;
  }

  /** A handler that disables its own source keeps it in service for ever; one that enables it again
      before it returns does not. */
  method MaskingHandlers() returns (masked: set<Irq>, unmasked: set<Irq>)
    ensures 20 in masked && unmasked == {}
  {
    forall i: Irq
      ensures EnabledAfter([Disable(20), Enable(20)], i, true)
    {
      assert [Disable(20), Enable(20)][..1] == [Disable(20)];
    }
    masked := Interrupted([Disable(20)]);
    unmasked := Interrupted([Disable(20), Enable(20)]);
  }

  lemma ClaimPhase(t: seq<Event>, irq: Irq)
    requires PhaseOf(t) == Ready
    ensures PhaseOf(t + [Claimed(irq)]) == if irq == 0 then Ready else Took(irq)
  {
    assert (t + [Claimed(irq)])[..|t + [Claimed(irq)]| - 1] == t;
  }

  /** A registered entry carries the number it is registered under. */
  lemma {:induction false} EntryIrq(t: seq<Event>, irq: Irq)
    ensures LastEntry(t, irq).handler != NULL ==> LastEntry(t, irq).irqn == irq
  {
    if t != [] {
      EntryIrq(t[..|t| - 1], irq);
    }
  }

  lemma Served(t: seq<Event>, irq: Irq, e: Event)
    requires PhaseOf(t) == Took(irq)
    requires var entry := LastEntry(t, irq);
             if entry.handler == NULL then e == Missing(irq)
             else entry.irqn == irq && e == Dispatched(entry.handler, entry.irqn, entry.priv)
    ensures PhaseOf(t + [e]) == Handled(irq)
    ensures forall i: Irq :: EnabledBy(t + [e], i) == EnabledBy(t, i) && LastEntry(t + [e], i) == LastEntry(t, i)
  {
    assert (t + [e])[..|t + [e]| - 1] == t;
    ExtendAll(t, e);
  }

  lemma Finished(t: seq<Event>, irq: Irq)
    requires PhaseOf(t) == Handled(irq)
    ensures PhaseOf(t + [Completed(irq)]) == Ready
  {
    assert (t + [Completed(irq)])[..|t + [Completed(irq)]| - 1] == t;
  }

  lemma {:induction false} NeverEnabledOne(t: seq<Event>, irq: Irq)
    requires irq < FIRST_IRQ
    ensures !EnabledBy(t, irq)
  {
    if t != [] {
      NeverEnabledOne(t[..|t| - 1], irq);
    }
  }

  lemma NeverEnabled(t: seq<Event>)
    ensures forall irq: Irq :: irq < FIRST_IRQ ==> !EnabledBy(t, irq)
  {
    forall irq: Irq | irq < FIRST_IRQ {
      NeverEnabledOne(t, irq);
    }
  }
}