/** The test-and-set spin lock of common/riscv_lock.c and its client, the locked console print of
    common/thread_safe_printf.c, as interleaved atomic steps of any number of harts over a
    sequentially consistent memory. */
module ConsoleLock {

  import opened MachineWords

  const UNLOCKED: nat := 0
  const LOCKED: nat := 1

  /** Where a hart is: outside thread_safe_printf, about to check the lock word, about to swap it,
      or holding the lock with `sent` characters of its message on the console. */
  datatype Pc = Idle | Checking | Trying | Printing(sent: nat)

  datatype Hart = Hart(pc: Pc, message: string)

  datatype Record = Record(hart: nat, message: string)

  /** The lock word, the console and the harts; the log lists the completed calls in order. */
  datatype State = State(lock: nat, console: string, harts: seq<Hart>, log: seq<Record>)

  /** One atomic step of one hart. */
  datatype Step =
    | Call(h: nat, message: string)
    | Check(h: nat)
    | Swap(h: nat)
    | Put(h: nat)
    | Release(h: nat)

  function Initial(n: nat): State {
    State(UNLOCKED, "", seq(n, _ => Hart(Idle, "")), [])
  }

  predicate Enabled(s: State, e: Step) {
    && e.h < |s.harts|
    && var hart := s.harts[e.h];
       match e
       case Call(_, _) => hart.pc.Idle?
       case Check(_) => hart.pc.Checking?
       case Swap(_) => hart.pc.Trying?
       case Put(_) => hart.pc.Printing? && hart.pc.sent < |hart.message|
       case Release(_) => hart.pc.Printing? && hart.pc.sent == |hart.message|
  }

  function At(s: State, h: nat, pc: Pc): State
    requires h < |s.harts|
  {
    s.(harts := s.harts[h := s.harts[h].(pc := pc)])
  }

  /** The 64-bit lock word after a 32-bit swap has stored LOCKED in its low half. */
  function Swapped(lock: nat): nat {
    lock / TWO32 * TWO32 + LOCKED
  }

  /** The check reads the whole lock word; the swap reads and writes its low half, whatever it held;
      only the hart that read UNLOCKED there goes on. */
  function Apply(s: State, e: Step): (t: State)
    requires Enabled(s, e)
    ensures |t.harts| == |s.harts|
  {
    var hart := s.harts[e.h];
    match e
    case Call(h, message) => s.(harts := s.harts[h := Hart(Checking, message)])
    case Check(h) => At(s, h, if s.lock == UNLOCKED then Trying else Checking)
    case Swap(h) => At(s.(lock := Swapped(s.lock)), h, if s.lock % TWO32 == UNLOCKED then Printing(0) else Checking)
    case Put(h) => At(s.(console := s.console + [hart.message[hart.pc.sent]]), h, Printing(hart.pc.sent + 1))
    case Release(h) => At(s.(lock := UNLOCKED, log := s.log + [Record(h, hart.message)]), h, Idle)
  }

  predicate Legal(s: State, run: seq<Step>)
    decreases |run|
  {
    run == [] || (Enabled(s, run[0]) && Legal(Apply(s, run[0]), run[1..]))
  }

  function After(s: State, run: seq<Step>): State
    requires Legal(s, run)
    decreases |run|
  {
    if run == [] then s else After(Apply(s, run[0]), run[1..])
  }

  // ---------- what every step keeps ----------

  predicate Holds(s: State, h: nat) {
    h < |s.harts| && s.harts[h].pc.Printing?
  }

  ghost predicate Exclusive(s: State) {
    forall g: nat, h: nat :: Holds(s, g) && Holds(s, h) ==> g == h
  }

  function Messages(log: seq<Record>): string {
    if log == [] then "" else Messages(log[..|log| - 1]) + log[|log| - 1].message
  }

  ghost predicate SentInRange(s: State) {
    forall h: nat :: Holds(s, h) ==> s.harts[h].pc.sent <= |s.harts[h].message|
  }

  /** Whole messages, and behind them what the holder of the lock has sent of its own. */
  ghost predicate ConsoleWhole(s: State)
    requires SentInRange(s)
  {
    && (s.lock == UNLOCKED ==> s.console == Messages(s.log))
    && (forall h: nat :: Holds(s, h) ==>
          s.console == Messages(s.log) + s.harts[h].message[..s.harts[h].pc.sent])
  }

  ghost predicate Inv(s: State) {
    && (s.lock == UNLOCKED || s.lock == LOCKED)
    && (s.lock == LOCKED <==> exists h: nat :: Holds(s, h))
    && Exclusive(s)
    && SentInRange(s)
    && ConsoleWhole(s)
  }

  lemma InitialInv(n: nat)
    ensures Inv(Initial(n))
  {
  }

  /** A step that leaves lock, console and log alone and moves a hart that is not printing. */
  lemma QuietStep(s: State, t: State, h: nat, hart: Hart)
    requires Inv(s) && h < |s.harts| && !Holds(s, h) && !hart.pc.Printing?
    requires t == s.(harts := s.harts[h := hart])
    ensures Inv(t)
  {
    assert forall g: nat :: Holds(t, g) <==> Holds(s, g);
  }

  lemma SwapInv(s: State, h: nat)
    requires Inv(s) && Enabled(s, Swap(h))
    ensures Inv(Apply(s, Swap(h)))
  {
    var t := Apply(s, Swap(h));
    if s.lock == UNLOCKED {
      assert Holds(t, h);
      assert forall g: nat :: Holds(t, g) ==> g == h || Holds(s, g);
    } else {
      QuietStep(s, t, h, s.harts[h].(pc := Checking));
    }
  }

  lemma PutInv(s: State, h: nat)
    requires Inv(s) && Enabled(s, Put(h))
    ensures Inv(Apply(s, Put(h)))
  {
    var t := Apply(s, Put(h));
    var hart := s.harts[h];
    assert Holds(s, h) && Holds(t, h);
    assert forall g: nat :: Holds(t, g) <==> Holds(s, g);
    assert hart.message[..hart.pc.sent] + [hart.message[hart.pc.sent]] == hart.message[..hart.pc.sent + 1];
  }

  lemma ReleaseInv(s: State, h: nat)
    requires Inv(s) && Enabled(s, Release(h))
    ensures Inv(Apply(s, Release(h)))
  {
    var t := Apply(s, Release(h));
    assert Holds(s, h) && !Holds(t, h);
    assert forall g: nat :: Holds(t, g) ==> Holds(s, g);
    assert t.log[..|t.log| - 1] == s.log;
    assert s.harts[h].message[..s.harts[h].pc.sent] == s.harts[h].message;
  }

  lemma StepInv(s: State, e: Step)
    requires Inv(s) && Enabled(s, e)
    ensures Inv(Apply(s, e))
  {
    match e
    case Call(h, message) => QuietStep(s, Apply(s, e), h, Hart(Checking, message));
    case Check(h) =>
      QuietStep(s, Apply(s, e), h, s.harts[h].(pc := if s.lock == UNLOCKED then Trying else Checking));
    case Swap(h) => SwapInv(s, h);
    case Put(h) => PutInv(s, h);
    case Release(h) => ReleaseInv(s, h);
  }

  lemma {:induction false} RunInv(s: State, run: seq<Step>)
    requires Inv(s) && Legal(s, run)
    ensures Inv(After(s, run))
    decreases |run|
  {
    hide Inv;
    if run != [] {
      StepInv(s, run[0]);
      RunInv(Apply(s, run[0]), run[1..]);
    }
  }

  /** In every run of any number of harts, at most one is between spin_lock and spin_unlock, one is
      there exactly while the lock word is set, and the console is whole messages followed by a
      prefix of the holder's message. */
  lemma MutualExclusion(n: nat, run: seq<Step>)
    requires Legal(Initial(n), run)
    ensures var t := After(Initial(n), run);
            && (forall g: nat, h: nat :: Holds(t, g) && Holds(t, h) ==> g == h)
            && (t.lock == LOCKED <==> exists h: nat :: Holds(t, h))
            && (t.lock == UNLOCKED ==> t.console == Messages(t.log))
            && (forall h: nat :: Holds(t, h) ==>
                  && t.harts[h].pc.sent <= |t.harts[h].message|
                  && t.console == Messages(t.log) + t.harts[h].message[..t.harts[h].pc.sent])
  {
    InitialInv(n);
    RunInv(Initial(n), run);
  }

  // ---------- every call's message is printed once, in the order of the calls ----------

  /** The messages hart h passed to thread_safe_printf in a run. */
  function Called(run: seq<Step>, h: nat): seq<string>
    decreases |run|
  {
    if run == [] then []
    else (if run[0].Call? && run[0].h == h then [run[0].message] else []) + Called(run[1..], h)
  }

  /** The messages of hart h that are on the console in full. */
  function Printed(log: seq<Record>, h: nat): seq<string> {
    if log == [] then []
    else Printed(log[..|log| - 1], h) + (if log[|log| - 1].hart == h then [log[|log| - 1].message] else [])
  }

  /** The message of a call that has not returned. */
  function Pending(s: State, h: nat): seq<string>
    requires h < |s.harts|
  {
    if s.harts[h].pc.Idle? then [] else [s.harts[h].message]
  }

  lemma NothingLostInStep(s: State, e: Step, h: nat)
    requires Enabled(s, e) && h < |s.harts|
    ensures Printed(Apply(s, e).log, h) + Pending(Apply(s, e), h) ==
            Printed(s.log, h) + Pending(s, h) + (if e.Call? && e.h == h then [e.message] else [])
  {
    var t := Apply(s, e);
    if e.Release? {
      assert t.log[..|t.log| - 1] == s.log;
      if e.h == h {
        assert Printed(t.log, h) == Printed(s.log, h) + [s.harts[h].message];
      }
    } else {
      assert t.log == s.log;
    }
  }

  lemma {:induction false} NothingLost(s: State, run: seq<Step>, h: nat)
    requires Legal(s, run) && h < |s.harts|
    ensures |After(s, run).harts| == |s.harts|
    ensures Printed(After(s, run).log, h) + Pending(After(s, run), h) ==
            Printed(s.log, h) + Pending(s, h) + Called(run, h)
    decreases |run|
  {
    hide Enabled, Apply, Printed, Pending;
    if run == [] {
      assert Called(run, h) == [];
    } else {
      var e, t := run[0], Apply(s, run[0]);
      var now := if e.Call? && e.h == h then [e.message] else [];
      NothingLostInStep(s, e, h);
      NothingLost(t, run[1..], h);
      Joined(Printed(s.log, h) + Pending(s, h), now, Called(run[1..], h));
    }
  }

  lemma Joined(a: seq<string>, b: seq<string>, c: seq<string>)
    ensures a + b + c == a + (b + c)
  {
  }

  /** From power-up, the whole messages of a hart on the console and the one it is in the middle of
      are exactly those it asked for, in that order. */
  lemma NothingLostFromStart(n: nat, run: seq<Step>, h: nat)
    requires Legal(Initial(n), run) && h < n
    ensures var t := After(Initial(n), run);
            |t.harts| == n && Printed(t.log, h) + Pending(t, h) == Called(run, h)
  {
    NothingLost(Initial(n), run, h);
    assert Printed([], h) + Pending(Initial(n), h) == [];
  }

  // ---------- no deadlock ----------

  lemma {:induction false} LegalAppend(s: State, first: seq<Step>, second: seq<Step>)
    requires Legal(s, first) && Legal(After(s, first), second)
    ensures Legal(s, first + second)
    ensures After(s, first + second) == After(After(s, first), second)
    decreases |first|
  {
    hide Enabled, Apply;
    if first == [] {
      assert first + second == second;
    } else {
      LegalAppend(Apply(s, first[0]), first[1..], second);
      assert (first + second)[1..] == first[1..] + second;
    }
  }

  /** The holder can always finish: its message ends up on the console and the lock is free. */
  lemma {:induction false} HolderFinishes(s: State, h: nat) returns (run: seq<Step>)
    requires Inv(s) && Holds(s, h)
    ensures Legal(s, run) && Inv(After(s, run))
    ensures var t := After(s, run);
            && t.lock == UNLOCKED && t.log == s.log + [Record(h, s.harts[h].message)]
            && t.harts == s.harts[h := s.harts[h].(pc := Idle)]
    decreases |s.harts[h].message| - s.harts[h].pc.sent
  {
    var hart := s.harts[h];
    var e := if hart.pc.sent == |hart.message| then Release(h) else Put(h);
    var t := Apply(s, e);
    StepInv(s, e);
    if e.Release? {
      run := [e];
      assert run[1..] == [];
    } else {
      var rest := HolderFinishes(t, h);
      run := [e] + rest;
      assert run[1..] == rest;
    }
  }

  /** How many of the steps of a run are hart h's. */
  function StepsOf(run: seq<Step>, h: nat): nat
    decreases |run|
  {
    if run == [] then 0 else (if run[0].h == h then 1 else 0) + StepsOf(run[1..], h)
  }

  /** The steps the holder has still to take: its remaining characters and the release. */
  function Remaining(s: State, h: nat): int
    requires Holds(s, h)
  {
    |s.harts[h].message| - s.harts[h].pc.sent + 1
  }

  lemma {:induction false} LogGrows(s: State, run: seq<Step>)
    requires Legal(s, run)
    ensures s.log <= After(s, run).log
    decreases |run|
  {
    if run != [] {
      LogGrows(Apply(s, run[0]), run[1..]);
    }
  }

  /** Whatever the other harts do: in every run the holder releases the lock if and only if it takes
      enough steps of its own, and then its message is in the log; until then it keeps the lock. */
  lemma {:induction false} HolderReleases(s: State, run: seq<Step>, h: nat)
    requires Inv(s) && Holds(s, h) && Legal(s, run)
    ensures Release(h) in run <==> StepsOf(run, h) >= Remaining(s, h)
    ensures StepsOf(run, h) >= Remaining(s, h) ==>
              && |s.log| < |After(s, run).log|
              && Record(h, s.harts[h].message) in After(s, run).log[|s.log|..]
    ensures StepsOf(run, h) < Remaining(s, h) ==>
              Holds(After(s, run), h) && Remaining(After(s, run), h) == Remaining(s, h) - StepsOf(run, h)
    decreases |run|
  {
    if run != [] {
      var e, rest, t := run[0], run[1..], Apply(s, run[0]);
      StepInv(s, e);
      if e == Release(h) {
        LogGrows(t, rest);
        var log := After(t, rest).log;
        assert log[|s.log|] == t.log[|s.log|] == Record(h, s.harts[h].message);
        assert log[|s.log|..][0] == Record(h, s.harts[h].message);
      } else {
        StillHolds(s, e, h);
        HolderReleases(t, rest, h);
      }
    }
  }

  lemma StillHolds(s: State, e: Step, h: nat)
    requires Inv(s) && Holds(s, h) && Enabled(s, e) && e != Release(h)
    ensures var t := Apply(s, e);
            && Holds(t, h) && t.harts[h].message == s.harts[h].message && t.log == s.log
            && Remaining(t, h) == Remaining(s, h) - (if e.h == h then 1 else 0)
  {
    assert e.Release? ==> Holds(s, e.h);
  }

  /** From every reachable state, a hart waiting in thread_safe_printf can be scheduled so that its
      call returns with its message on the console: behind at most the holder's. */
  lemma WaitingFinishes(s: State, h: nat) returns (run: seq<Step>)
    requires Inv(s) && h < |s.harts| && (s.harts[h].pc.Checking? || s.harts[h].pc.Trying?)
    ensures Legal(s, run) && Inv(After(s, run))
    ensures var t := After(s, run);
            && |t.harts| == |s.harts| && t.harts[h].pc.Idle?
            && |s.log| < |t.log| <= |s.log| + 2 && t.log[|t.log| - 1] == Record(h, s.harts[h].message)
  {
    var first: seq<Step> := [];
    if s.lock == LOCKED {
      var g: nat :| Holds(s, g);
      first := HolderFinishes(s, g);
    }
    var t := After(s, first);
    var second := TakesFreeLock(t, h);
    LegalAppend(s, first, second);
    run := first + second;
  }

  lemma TakesFreeLock(s: State, h: nat) returns (run: seq<Step>)
    requires Inv(s) && s.lock == UNLOCKED
    requires h < |s.harts| && (s.harts[h].pc.Checking? || s.harts[h].pc.Trying?)
    ensures Legal(s, run) && Inv(After(s, run))
    ensures var t := After(s, run);
            && |t.harts| == |s.harts| && t.harts[h].pc.Idle?
            && t.log == s.log + [Record(h, s.harts[h].message)]
  {
    var u := s;
    var first := [];
    if s.harts[h].pc.Checking? {
      StepInv(s, Check(h));
      u := Apply(s, Check(h));
      first := [Check(h)];
    }
    OneStep(s, Check(h));
    OneStep(u, Swap(h));
    LegalAppend(s, first, [Swap(h)]);
    StepInv(u, Swap(h));
    var t := Apply(u, Swap(h));
    assert Holds(t, h);
    var second := HolderFinishes(t, h);
    LegalAppend(s, first + [Swap(h)], second);
    run := first + [Swap(h)] + second;
  }

  lemma OneStep(s: State, e: Step)
    ensures Enabled(s, e) ==> Legal(s, [e]) && After(s, [e]) == Apply(s, e)
  {
    assert [e][1..] == [];
  }
}
