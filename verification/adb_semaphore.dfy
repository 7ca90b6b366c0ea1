/**
 * The semaphore, one synchronous section at a time. Waking a waiter resolves its
 * promise; the waiter counts itself later, in its own continuation, so a state has
 * tickets that are parked, tickets that are woken but not yet counted, and tickets
 * that hold a slot.
 */
module AdbSemaphore {

  type Ticket = nat

  datatype Sem = Sem(inFlight: int, max: nat, waiters: seq<Ticket>, woken: seq<Ticket>, held: set<Ticket>)

  function Min(a: int, b: int): int { if a < b then a else b }

  function Max(a: int, b: int): int { if a < b then b else a }

  /** `acquire`, up to its first suspension: take a slot, or park. */
  function Enter(s: Sem, t: Ticket): Sem {
    if s.inFlight < s.max
    then s.(inFlight := s.inFlight + 1, held := s.held + {t})
    else s.(waiters := s.waiters + [t])
  }

  /** The rest of `acquire` in a woken waiter: it counts itself, whatever the cap is by now. */
  function TakeWake(s: Sem, t: Ticket): Sem {
    if t in s.woken
    then s.(inFlight := s.inFlight + 1, woken := Without(s.woken, t), held := s.held + {t})
    else s
  }

  function Without(ts: seq<Ticket>, t: Ticket): (r: seq<Ticket>)
    ensures t in ts ==> |r| == |ts| - 1
    ensures t !in ts ==> r == ts
    ensures forall x | x in r :: x in ts
    ensures forall x | x in ts && x != t :: x in r
  {
    if ts == [] then []
    else if ts[0] == t then ts[1..]
    else [ts[0]] + Without(ts[1..], t)
  }

  /** Calling `t`'s releaser: only the first call does anything. It wakes the longest waiter. */
  function Release(s: Sem, t: Ticket): Sem {
    if t !in s.held then s else
    var s' := s.(inFlight := s.inFlight - 1, held := s.held - {t});
    if s.waiters == [] then s' else s'.(waiters := s.waiters[1..], woken := s.woken + [s.waiters[0]])
  }

  /** How many waiters a new cap wakes: the slots it has above those counted now. */
  function WakeCount(s: Sem, max: nat): (k: nat)
    ensures k <= |s.waiters|
  {
    Min(|s.waiters|, Max(0, max - s.inFlight))
  }

  function Resize(s: Sem, max: nat): Sem {
    if max < 1 then s else
    var k := WakeCount(s, max);
    s.(max := max, waiters := s.waiters[k..], woken := s.woken + s.waiters[..k])
  }

  // ------------------------------------------------------------------- object

  class Semaphore {
    var inFlight: int
    var waiters: seq<Ticket>
    var maxValue: nat
    /** Tickets whose promise is resolved and whose continuation has not run. */
    var woken: seq<Ticket>
    /** Tickets whose releaser has not been called. */
    var held: set<Ticket>

    function Now(): Sem
      reads this
    {
      Sem(inFlight, maxValue, waiters, woken, held)
    }

    constructor (max: nat)
      requires max >= 1
      ensures Now() == Sem(0, max, [], [], {})
    {
      inFlight, waiters, maxValue, woken, held := 0, [], max, [], {};
    }

    method Acquire(t: Ticket) returns (got: bool)
      modifies this
      ensures Now() == Enter(old(Now()), t)
      ensures got == (old(inFlight) < maxValue)
    {
      if inFlight < maxValue {
        inFlight, held := inFlight + 1, held + {t};
        return true;
      }
      waiters := waiters + [t];
      return false;
    }

    /** The continuation of a woken waiter. */
    method ResumeWaiter(t: Ticket)
      modifies this
      ensures Now() == TakeWake(old(Now()), t)
    {
      if t in woken {
        woken, inFlight, held := Without(woken, t), inFlight + 1, held + {t};
      }
    }

    method ReleaseSlot(t: Ticket)
      modifies this
      ensures Now() == Release(old(Now()), t)
    {
      if t !in held { return; }
      inFlight, held := inFlight - 1, held - {t};
      if waiters != [] {
        woken, waiters := woken + [waiters[0]], waiters[1..];
      }
    }

    /** Refuses a cap below 1 and changes nothing. */
    method SetMax(max: nat) returns (ok: bool)
      modifies this
      ensures ok == (max >= 1) && Now() == Resize(old(Now()), max)
    {
      if max < 1 { return false; }
      maxValue := max;
      var projected := inFlight;
      ghost var k := 0;
      while projected < maxValue && waiters != []
        invariant maxValue == max && inFlight == old(inFlight) && held == old(held)
        invariant k <= |old(waiters)| && projected == inFlight + k
        invariant k > 0 ==> projected <= maxValue
        invariant waiters == old(waiters)[k..] && woken == old(woken) + old(waiters)[..k]
        decreases |waiters|
      {
        projected := projected + 1;
        woken := woken + [waiters[0]];
        waiters := waiters[1..];
        k := k + 1;
      }
      assert k == WakeCount(old(Now()), max);
      return true;
    }
  }

  // --------------------------------------------------------------------- runs

  datatype Action = DoEnter(t: Ticket) | DoWake(t: Ticket) | DoRelease(t: Ticket) | DoResize(max: nat)

  function Step(s: Sem, a: Action): Sem {
    match a
    case DoEnter(t) => Enter(s, t)
    case DoWake(t) => TakeWake(s, t)
    case DoRelease(t) => Release(s, t)
    case DoResize(max) => Resize(s, max)
  }

  function Exec(s: Sem, actions: seq<Action>): Sem {
    if actions == [] then s else Step(Exec(s, actions[..|actions| - 1]), actions[|actions| - 1])
  }

  /** A parked waiter means the cap is used up by slots held and slots already promised. */
  predicate NoLostWakeUp(s: Sem) {
    s.waiters != [] ==> s.inFlight + |s.woken| >= s.max
  }

  lemma StepLosesNoWakeUp(s: Sem, a: Action)
    requires NoLostWakeUp(s)
    ensures NoLostWakeUp(Step(s, a))
  {
    hide Without;
    if a.DoResize? && a.max >= 1 {
      var k := WakeCount(s, a.max);
      assert k < |s.waiters| ==> s.inFlight + k >= a.max;
    }
  }

  /** In every state of every run, no wake-up is lost. */
  lemma {:induction false} RunLosesNoWakeUp(s: Sem, actions: seq<Action>)
    requires NoLostWakeUp(s)
    ensures NoLostWakeUp(Exec(s, actions))
    decreases |actions|
  {
    if actions != [] {
      RunLosesNoWakeUp(s, actions[..|actions| - 1]);
      StepLosesNoWakeUp(Exec(s, actions[..|actions| - 1]), actions[|actions| - 1]);
    }
  }

  // ------------------------------------------------- first come, first served

  /** The tickets that had to wait, in the order they came; `s.waiters` were waiting at the start. */
  function Parked(s: Sem, actions: seq<Action>): seq<Ticket> {
    if actions == [] then s.waiters else
    var before, a := actions[..|actions| - 1], actions[|actions| - 1];
    var found := Exec(s, before);
    Parked(s, before) + if a.DoEnter? && found.inFlight >= found.max then [a.t] else []
  }

  /** The tickets a step wakes. */
  function NewlyWoken(s: Sem, s': Sem): seq<Ticket> {
    if |s'.woken| > |s.woken| then s'.woken[|s.woken|..] else []
  }

  /** The tickets woken, in the order they were. */
  function Woke(s: Sem, actions: seq<Action>): seq<Ticket> {
    if actions == [] then [] else
    var before := actions[..|actions| - 1];
    Woke(s, before) + NewlyWoken(Exec(s, before), Exec(s, actions))
  }

  /** On every run, those who had to wait are woken in the order they came: the rest still waits, in that order. */
  lemma {:induction false} FirstComeFirstServed(s: Sem, actions: seq<Action>)
    ensures Parked(s, actions) == Woke(s, actions) + Exec(s, actions).waiters
    decreases |actions|
  {
    hide Without;
    if actions == [] {
      assert [] + s.waiters == s.waiters;
    } else {
      var before, a := actions[..|actions| - 1], actions[|actions| - 1];
      FirstComeFirstServed(s, before);
      StepServesInOrder(Exec(s, before), a);
    }
  }

  lemma StepServesInOrder(s: Sem, a: Action)
    ensures var s' := Step(s, a);
      s.waiters + (if a.DoEnter? && s.inFlight >= s.max then [a.t] else []) == NewlyWoken(s, s') + s'.waiters
  {
    hide Without;
  }

  /** A release wakes one waiter if there is one, whatever the cap; a second one of the same slot does nothing. */
  lemma ReleaseWakesOne(s: Sem, t: Ticket)
    ensures var s' := Release(s, t);
      if t in s.held
      then s'.held == s.held - {t} && s'.inFlight == s.inFlight - 1 && |NewlyWoken(s, s')| == (if s.waiters == [] then 0 else 1)
      else s' == s
  {
  }

  /** A resize wakes waiters while there are any and the slots counted and those woken by it leave room under the cap. */
  lemma ResizeWakesTheRoom(s: Sem, max: nat)
    requires max >= 1
    ensures var s' := Resize(s, max);
      var k := |NewlyWoken(s, s')|;
      && s'.max == max && s'.inFlight == s.inFlight && s'.held == s.held
      && (s'.waiters != [] ==> s.inFlight + k >= max) && (k > 0 ==> s.inFlight + k <= max)
  {
  }

  /** The slots counted when the cap was last set. */
  function HeldAtResize(s: Sem, actions: seq<Action>): int
    decreases |actions|
  {
    if actions == [] then s.inFlight else
    var before := actions[..|actions| - 1];
    match actions[|actions| - 1]
    case DoResize(max) => if max >= 1 then Exec(s, before).inFlight else HeldAtResize(s, before)
    case _ => HeldAtResize(s, before)
  }

  /** Slots held and slots promised stay within the cap, or within what was held when it was set. */
  predicate Within(s: Sem, heldThen: int) {
    s.inFlight + |s.woken| <= Max(s.max, heldThen)
  }

  /**
   * A run in which every wake-up is taken before the next acquire or resize: the
   * hand-off the cap relies on.
   */
  predicate HandsOff(s: Sem, actions: seq<Action>)
    decreases |actions|
  {
    actions == [] ||
    var before := actions[..|actions| - 1];
    var a := actions[|actions| - 1];
    && HandsOff(s, before)
    && (a.DoEnter? || a.DoResize? ==> Exec(s, before).woken == [])
  }

  lemma {:induction false} HandOffKeepsCap(s: Sem, actions: seq<Action>)
    requires Within(s, s.inFlight) && HandsOff(s, actions)
    ensures Within(Exec(s, actions), HeldAtResize(s, actions))
    ensures Exec(s, actions).inFlight <= Max(Exec(s, actions).max, HeldAtResize(s, actions))
    decreases |actions|
  {
    hide Without;
    if actions != [] {
      HandOffKeepsCap(s, actions[..|actions| - 1]);
    }
  }

  /**
   * When an acquire keeps the bound: exactly when it parks, or when the slots still
   * promised to woken waiters leave one free. A caller can read both off the state.
   */
  lemma EnterWithinIff(s: Sem, t: Ticket, heldThen: int)
    requires Within(s, heldThen)
    ensures Within(Enter(s, t), heldThen)
      <==> s.inFlight >= s.max || s.inFlight + |s.woken| < Max(s.max, heldThen)
  {
  }

  /** A resize counts only the slots held, not those promised: it keeps the bound exactly when these fit. */
  lemma ResizeWithinIff(s: Sem, max: nat)
    requires max >= 1
    ensures Within(Resize(s, max), s.inFlight)
      <==> |s.woken| + WakeCount(s, max) <= Max(0, max - s.inFlight)
  {
  }

  predicate OnlyWakes(actions: seq<Action>) {
    forall a | a in actions :: a.DoWake?
  }

  /** Continuations of woken waiters alone can take the slots held above the bound. */
  ghost predicate CanExceed(s: Sem, heldThen: int) {
    exists wakes :: OnlyWakes(wakes) && Exec(s, wakes).inFlight > Max(s.max, heldThen)
  }

  /** A wake-up taken moves a slot from promised to held. */
  lemma {:induction false} WakesKeepSum(s: Sem, wakes: seq<Action>)
    requires OnlyWakes(wakes)
    ensures var s' := Exec(s, wakes);
      s'.inFlight + |s'.woken| == s.inFlight + |s.woken| && s'.max == s.max
    decreases |wakes|
  {
    hide Without;
    if wakes != [] {
      WakesKeepSum(s, wakes[..|wakes| - 1]);
      assert wakes[|wakes| - 1] in wakes;
    }
  }

  /** Every slot promised can be taken. */
  lemma {:induction false} AllTaken(s: Sem) returns (wakes: seq<Action>)
    ensures OnlyWakes(wakes) && Exec(s, wakes).inFlight == s.inFlight + |s.woken|
    decreases |s.woken|
  {
    hide Without;
    wakes := [];
    if s.woken != [] {
      var a := DoWake(s.woken[0]);
      var rest := AllTaken(Step(s, a));
      ExecAfter(s, a, rest);
      wakes := [a] + rest;
    }
  }

  lemma {:induction false} ExecAfter(s: Sem, a: Action, rest: seq<Action>)
    ensures Exec(s, [a] + rest) == Exec(Step(s, a), rest)
    decreases |rest|
  {
    hide Step;
    var all := [a] + rest;
    if rest == [] {
      assert all[..0] == [] && all[0] == a;
    } else {
      ExecAfter(s, a, rest[..|rest| - 1]);
      assert all[..|all| - 1] == [a] + rest[..|rest| - 1];
    }
  }

  /** The slots held can come to exceed the bound exactly when held and promised together do. */
  lemma ExceedsIff(s: Sem, heldThen: int)
    ensures CanExceed(s, heldThen) <==> !Within(s, heldThen)
  {
    if wakes :| OnlyWakes(wakes) && Exec(s, wakes).inFlight > Max(s.max, heldThen) { WakesKeepSum(s, wakes); }
    var all := AllTaken(s);
    assert OnlyWakes(all) && Exec(s, all).inFlight == s.inFlight + |s.woken|;
  }

  /**
   * Within the bound, an acquire lets the slots HELD exceed it, by wake-ups alone, if and
   * only if it takes a slot while the slots held and promised already use the bound up.
   */
  lemma EnterOvershootsIff(s: Sem, t: Ticket, heldThen: int)
    requires Within(s, heldThen)
    ensures CanExceed(Enter(s, t), heldThen)
      <==> s.inFlight < s.max && s.inFlight + |s.woken| >= Max(s.max, heldThen)
  {
    ExceedsIff(Enter(s, t), heldThen);
    EnterWithinIff(s, t, heldThen);
  }

  /** A resize does if and only if the slots promised, before and by it, exceed what the new cap leaves. */
  lemma ResizeOvershootsIff(s: Sem, max: nat)
    requires max >= 1
    ensures CanExceed(Resize(s, max), s.inFlight)
      <==> |s.woken| + WakeCount(s, max) > Max(0, max - s.inFlight)
  {
    ExceedsIff(Resize(s, max), s.inFlight);
    ResizeWithinIff(s, max);
  }

  /** `a` finds room for the slots promised; only an acquire or a resize can fail to. */
  predicate HasRoom(s: Sem, heldThen: int, a: Action) {
    match a
    case DoEnter(_) => s.inFlight >= s.max || s.inFlight + |s.woken| < Max(s.max, heldThen)
    case DoResize(max) => max < 1 || |s.woken| + WakeCount(s, max) <= Max(0, max - s.inFlight)
    case _ => true
  }

  predicate EachHasRoom(s: Sem, actions: seq<Action>)
    decreases |actions|
  {
    actions == [] ||
    var before := actions[..|actions| - 1];
    EachHasRoom(s, before) && HasRoom(Exec(s, before), HeldAtResize(s, before), actions[|actions| - 1])
  }

  /** After no prefix of the run can wake-ups alone take the slots held above the bound. */
  ghost predicate NeverExceeds(s: Sem, actions: seq<Action>) {
    forall n | 0 <= n <= |actions| :: !CanExceed(Exec(s, actions[..n]), HeldAtResize(s, actions[..n]))
  }

  /**
   * The cap over a whole run: the slots held stay within the cap, or within what was
   * held when it was set, whatever wake-ups are taken when, if and only if every acquire
   * and every resize of the run found room for the slots promised.
   */
  lemma {:induction false} CapHoldsIff(s: Sem, actions: seq<Action>)
    requires Within(s, s.inFlight)
    ensures NeverExceeds(s, actions) <==> EachHasRoom(s, actions)
    ensures EachHasRoom(s, actions) ==> Within(Exec(s, actions), HeldAtResize(s, actions))
    decreases |actions|
  {
    hide CanExceed, Within, HasRoom, Step;
    ExceedsIff(Exec(s, actions), HeldAtResize(s, actions));
    if actions == [] {
      assert forall n | 0 <= n <= |actions| :: actions[..n] == [];
    } else {
      var before, a := actions[..|actions| - 1], actions[|actions| - 1];
      CapHoldsIff(s, before);
      NeverExceedsSnoc(s, actions);
      if EachHasRoom(s, before) { StepWithinIff(Exec(s, before), HeldAtResize(s, before), a); }
    }
  }

  lemma NeverExceedsSnoc(s: Sem, actions: seq<Action>)
    requires actions != []
    ensures NeverExceeds(s, actions)
      <==> NeverExceeds(s, actions[..|actions| - 1]) && !CanExceed(Exec(s, actions), HeldAtResize(s, actions))
  {
    hide CanExceed, Exec, HeldAtResize;
    var before := actions[..|actions| - 1];
    assert actions[..|actions|] == actions;
    if NeverExceeds(s, actions) {
      forall n | 0 <= n <= |before|
        ensures !CanExceed(Exec(s, before[..n]), HeldAtResize(s, before[..n]))
      {
        assert before[..n] == actions[..n];
      }
    } else {
      var n :| 0 <= n <= |actions| && CanExceed(Exec(s, actions[..n]), HeldAtResize(s, actions[..n]));
      if n < |actions| { assert before[..n] == actions[..n]; }
    }
  }

  /** One step from within the bound stays within it exactly when it has room. */
  lemma StepWithinIff(s: Sem, heldThen: int, a: Action)
    requires Within(s, heldThen)
    ensures Within(Step(s, a), if a.DoResize? && a.max >= 1 then s.inFlight else heldThen) <==> HasRoom(s, heldThen, a)
  {
    hide Without;
    if a.DoEnter? { EnterWithinIff(s, a.t, heldThen); }
    if a.DoResize? && a.max >= 1 { ResizeWithinIff(s, a.max); }
  }

  /** Taking every wake-up before the next acquire or resize is one way of always having room. */
  lemma {:induction false} HandOffHasRoom(s: Sem, actions: seq<Action>)
    requires HandsOff(s, actions)
    ensures EachHasRoom(s, actions)
    decreases |actions|
  {
    hide Step;
    if actions != [] { HandOffHasRoom(s, actions[..|actions| - 1]); }
  }

  /** An acquire between a wake-up and its waiter's continuation overshoots the cap. */
  lemma OvershootExample()
    ensures var s := Sem(0, 1, [], [], {});
      var run := [DoEnter(0), DoEnter(1), DoRelease(0), DoEnter(2), DoWake(1)];
      && Exec(s, run).inFlight == 2 > Exec(s, run).max
      && Exec(s, run).held == {1, 2}
  {
    var s := Sem(0, 1, [], [], {});
    var a, b, c, d, e := DoEnter(0), DoEnter(1), DoRelease(0), DoEnter(2), DoWake(1);
    assert [] + [a] == [a] && [a] + [b] == [a, b] && [a, b] + [c] == [a, b, c];
    assert [a, b, c] + [d] == [a, b, c, d] && [a, b, c, d] + [e] == [a, b, c, d, e];
    ExecSnoc(s, [], a);
    ExecSnoc(s, [a], b);
    ExecSnoc(s, [a, b], c);
    ExecSnoc(s, [a, b, c], d);
    ExecSnoc(s, [a, b, c, d], e);
    hide Exec, Step;
    OvershootSteps();
    assert Exec(s, []) == s by { ExecNone(s); }
  }

  lemma OvershootSteps()
    ensures var s0, s1, s2 := Sem(0, 1, [], [], {}), Sem(1, 1, [], [], {0}), Sem(1, 1, [1], [], {0});
      var s3, s4 := Sem(0, 1, [], [1], {}), Sem(1, 1, [], [1], {2});
      && Step(s0, DoEnter(0)) == s1 && Step(s1, DoEnter(1)) == s2 && Step(s2, DoRelease(0)) == s3
      && Step(s3, DoEnter(2)) == s4 && Step(s4, DoWake(1)) == Sem(2, 1, [], [], {1, 2})
  {
    assert [1][1..] == [];
  }

  lemma ExecNone(s: Sem)
    ensures Exec(s, []) == s
  {
  }

  lemma ExecSnoc(s: Sem, actions: seq<Action>, a: Action)
    ensures Exec(s, actions + [a]) == Step(Exec(s, actions), a)
  {
    assert (actions + [a])[..|actions|] == actions;
  }
}
