/** The debounce scheduler `untrimTimer` of the content script. Triggers
    (`more`) coalesce into a decaying run of once-a-second ticks (`stuff`),
    each of which re-applies the transform; when the feature is disabled
    the transform is undone instead and the run stops. The enabled flag is
    an input of every event, and the transform is reduced to the calls the
    scheduler makes into it. */
module Scheduler {

  /** A call into the transform: `untrim()` or `ununtrim()`. */
  datatype Call = Apply | Undo

  /** The scheduler's fields `again` and `isTicking`, plus the number of
      `setTimeout(stuff, 1000)` callbacks that are scheduled and have not
      fired yet. */
  datatype Timer = Timer(again: int, ticking: bool, pending: nat)

  /** The state the scheduler is constructed in. */
  const Idle: Timer := Timer(0, false, 0)

  /** `more` raises `again` only while it is below this cap. */
  const MaxAgain: int := 4

  /** `again` on a trigger that finds the scheduler idle. */
  const StartAgain: int := 2

  /** A resulting state together with the transform calls made on the way,
      in order. */
  datatype Outcome = Outcome(timer: Timer, calls: seq<Call>)

  /** The scheduler's invariant between events: `again` stays in [0, 4],
      a tick is pending exactly while the scheduler is ticking, and an idle
      scheduler has nothing left to do. */
  predicate Valid(t: Timer) {
    && 0 <= t.again <= MaxAgain
    && t.pending == (if t.ticking then 1 else 0)
    && (!t.ticking ==> t.again == 0)
  }

  /** The state in which `stuff` runs: ticking, with its own timer no
      longer pending (it has fired, or `more` has just started the run). */
  predicate InTick(t: Timer) {
    0 <= t.again <= MaxAgain && t.ticking && t.pending == 0
  }

  /** `stuff`, one tick: when disabled, undo and stop; otherwise schedule
      another tick if `again` is non-zero (decrementing it) or go idle,
      and apply the transform once. */
  function Stuff(t: Timer, enabled: bool): (o: Outcome)
    ensures |o.calls| == 1
    ensures o.calls[0] == Apply <==> enabled
    ensures !enabled ==> !o.timer.ticking && o.timer.again == 0 && o.timer.pending == t.pending
    ensures enabled && t.again != 0 ==> o.timer.pending == t.pending + 1 && o.timer.again == t.again - 1
    ensures enabled && t.again == 0 ==> !o.timer.ticking && o.timer.pending == t.pending
    ensures InTick(t) ==> Valid(o.timer)
  {
    if !enabled then Outcome(t.(again := 0, ticking := false), [Undo])
    else
      var next := if t.again != 0 then t.(again := t.again - 1, pending := t.pending + 1)
                  else t.(ticking := false);
      Outcome(next, [Apply])
  }

  /** `more`, a trigger: when disabled, undo and change nothing; else raise
      `again` below the cap and, if idle, restart it at two and run the
      first tick at once. */
  function More(t: Timer, enabled: bool): (o: Outcome)
    ensures !enabled ==> o == Outcome(t, [Undo])
    ensures enabled && t.ticking ==> o.calls == [] && o.timer.pending == t.pending
    ensures enabled && t.ticking && t.again < MaxAgain ==> o.timer.again == t.again + 1
    ensures enabled && t.ticking && t.again >= MaxAgain ==> o.timer.again == t.again
    ensures enabled && !t.ticking ==> o.calls == [Apply]
    ensures enabled ==> o.timer.ticking
    ensures Valid(t) ==> Valid(o.timer)
  {
    if !enabled then Outcome(t, [Undo])
    else
      var bumped := if t.again < MaxAgain then t.(again := t.again + 1) else t;
      if !bumped.ticking then Stuff(bumped.(again := StartAgain, ticking := true), enabled)
      else Outcome(bumped, [])
  }

  /** What can happen to the scheduler: a trigger (`more`, from a page
      event) or one second passing, which fires a pending tick if there is
      one. Each carries the value of the enabled flag at that moment. */
  datatype Event = Trigger(enabled: bool) | Timeout(enabled: bool)

  /** One event applied to the scheduler. */
  function Step(t: Timer, e: Event): (o: Outcome)
    ensures Valid(t) ==> Valid(o.timer)
    ensures e.Timeout? && !t.ticking && Valid(t) ==> o == Outcome(t, [])
  {
    match e
    case Trigger(en) => More(t, en)
    case Timeout(en) =>
      if t.pending == 0 then Outcome(t, [])
      else Stuff(t.(pending := t.pending - 1), en)
  }

  /** The scheduler driven by a sequence of events. */
  function Run(t: Timer, es: seq<Event>): (o: Outcome)
    decreases |es|
  {
    if es == [] then Outcome(t, [])
    else
      var first := Step(t, es[0]);
      var rest := Run(first.timer, es[1..]);
      Outcome(rest.timer, first.calls + rest.calls)
  }

  /** No flood of events, in any order and with any enabled flags, takes
      `again` out of [0, 4] or starts a second tick loop. */
  lemma {:induction false} RunKeepsValid(t: Timer, es: seq<Event>)
    requires Valid(t)
    ensures Valid(Run(t, es).timer)
    decreases |es|
  {
    if es != [] {
      RunKeepsValid(Step(t, es[0]).timer, es[1..]);
    }
  }

  /** How many ticks are still to come if no trigger arrives. */
  function Remaining(t: Timer): (n: int)
    ensures Valid(t) ==> 0 <= n <= MaxAgain + 1
  {
    if t.ticking then t.again + 1 else 0
  }

  /** Only seconds pass: no trigger among the events. */
  predicate AllTimeouts(es: seq<Event>) {
    forall i :: 0 <= i < |es| ==> es[i].Timeout?
  }

  /** After the last trigger: each second calls the transform at most once,
      at most `Remaining` (so at most five) ticks follow, and once that
      many seconds have passed the scheduler is idle. */
  lemma {:induction false} QuietPeriodBound(t: Timer, es: seq<Event>)
    requires Valid(t) && AllTimeouts(es)
    ensures |Run(t, es).calls| <= Remaining(t) <= 5
    ensures |Run(t, es).calls| <= |es|
    ensures |es| >= Remaining(t) ==> Run(t, es).timer == Idle
    decreases |es|
  {
    if es != [] {
      var first := Step(t, es[0]);
      QuietPeriodBound(first.timer, es[1..]);
      if t.ticking {
        assert Remaining(first.timer) <= Remaining(t) - 1;
      }
    }
  }

  /** `k` seconds passing with the feature enabled throughout. */
  function EnabledSeconds(k: nat): (es: seq<Event>)
    ensures |es| == k && AllTimeouts(es)
    ensures forall i :: 0 <= i < k ==> es[i] == Timeout(true)
  {
    seq(k, i => Timeout(true))
  }

  /** `k` applications of the transform in a row. */
  function Applies(k: nat): (cs: seq<Call>)
    ensures |cs| == k && forall i :: 0 <= i < k ==> cs[i] == Apply
  {
    seq(k, i => Apply)
  }

  /** The smaller of two integers. */
  function Min(a: int, b: int): int {
    if a <= b then a else b
  }

  /** One more application is one in front of the others. */
  lemma AppliesSucc(n: nat)
    ensures Applies(n + 1) == [Apply] + Applies(n)
  {
    assert Applies(n + 1)[1..] == Applies(n);
  }

  /** An idle scheduler ignores any number of seconds passing. */
  lemma {:induction false} IdleStaysIdle(t: Timer, k: nat)
    requires Valid(t) && !t.ticking
    ensures Run(t, EnabledSeconds(k)) == Outcome(t, [])
    decreases k
  {
    if k > 0 {
      var es := EnabledSeconds(k);
      assert es[0] == Timeout(true);
      assert es[1..] == EnabledSeconds(k - 1);
      assert Step(t, es[0]) == Outcome(t, []);
      IdleStaysIdle(t, k - 1);
    }
  }

  /** While ticking, the first enabled second applies once and leaves one
      tick fewer to come. */
  lemma TickThenRest(t: Timer, k: nat)
    requires Valid(t) && t.ticking && k > 0
    ensures var next := Step(t, Timeout(true)).timer;
            && Valid(next)
            && Remaining(next) == Remaining(t) - 1
            && Run(t, EnabledSeconds(k)).calls == [Apply] + Run(next, EnabledSeconds(k - 1)).calls
  {
    var es := EnabledSeconds(k);
    assert es[0] == Timeout(true);
    assert es[1..] == EnabledSeconds(k - 1);
    assert Step(t, es[0]).calls == [Apply];
  }

  /** With the feature staying enabled, every remaining tick happens and
      each applies the transform exactly once. */
  lemma {:induction false} QuietPeriodExact(t: Timer, k: nat)
    requires Valid(t)
    ensures Run(t, EnabledSeconds(k)).calls == Applies(Min(k, Remaining(t)))
    decreases k
  {
    if k == 0 {
      assert EnabledSeconds(0) == [];
      assert Applies(0) == [];
    } else if !t.ticking {
      IdleStaysIdle(t, k);
      assert Applies(0) == [];
    } else {
      var next := Step(t, Timeout(true)).timer;
      TickThenRest(t, k);
      QuietPeriodExact(next, k - 1);
      AppliesSucc(Min(k - 1, Remaining(t) - 1));
    }
  }

  /** A lone trigger from idle applies the transform exactly three times
      (once at once, then on each of two decay ticks) and the scheduler is
      idle again, however long one waits after that. */
  lemma LoneTrigger(k: nat)
    requires k >= 2
    ensures Run(Idle, [Trigger(true)] + EnabledSeconds(k)) == Outcome(Idle, [Apply, Apply, Apply])
  {
    var es := [Trigger(true)] + EnabledSeconds(k);
    var first := Step(Idle, es[0]);
    assert first == Outcome(Timer(1, true, 1), [Apply]);
    assert es[1..] == EnabledSeconds(k);
    QuietPeriodExact(first.timer, k);
    QuietPeriodBound(first.timer, EnabledSeconds(k));
    assert Applies(2) == [Apply, Apply];
  }

  /** Every enabled trigger is answered within one second: afterwards a
      tick is pending, so the next second applies the transform (if the
      trigger did not already apply it), and at least two and at most
      five ticks are still to come. */
  lemma TriggerIsAnswered(t: Timer)
    requires Valid(t)
    ensures var o := More(t, true);
            && o.timer.pending == 1
            && 2 <= Remaining(o.timer) <= 5
            && Step(o.timer, Timeout(true)).calls == [Apply]
  {
  }

  /** While the feature stays disabled the transform is only ever undone:
      every call is `Undo`, one per trigger and at most one per second. */
  lemma {:induction false} DisabledNeverApplies(t: Timer, es: seq<Event>)
    requires forall i :: 0 <= i < |es| ==> !es[i].enabled
    ensures forall i :: 0 <= i < |Run(t, es).calls| ==> Run(t, es).calls[i] == Undo
    decreases |es|
  {
    if es != [] {
      var first := Step(t, es[0]);
      DisabledNeverApplies(first.timer, es[1..]);
      var rest := Run(first.timer, es[1..]);
      assert Run(t, es).calls == first.calls + rest.calls;
      assert forall i :: 0 <= i < |first.calls| ==> first.calls[i] == Undo;
    }
  }
}
