/** stop_signal: a one-shot latch over a condition variable. */
module StopSignal {
  /** `blocked` waits on the condition variable, `woken` has been broadcast to but has not
      run yet, `released` has come back from `wait`. */
  datatype Latch = Latch(caught: bool, blocked: set<nat>, woken: set<nat>, released: set<nat>, broadcasts: nat)

  /** `Signal` is the delivery of SIGINT or SIGTERM, `Resume` the turn of a woken waiter. */
  datatype Step = Signal | Wait(waiter: nat) | Resume(waiter: nat)

  const NEW_LATCH := Latch(false, {}, {}, {}, 0)

  predicate Known(l: Latch, w: nat) {
    w in l.blocked || w in l.woken || w in l.released
  }

  /** The loop of `wait`: done when the predicate holds, otherwise queued again. */
  function Recheck(l: Latch, w: nat): Latch {
    if l.caught then l.(released := l.released + {w}) else l.(blocked := l.blocked + {w})
  }

  function Apply(l: Latch, step: Step): Latch {
    match step
    case Signal =>
      if l.caught then l
      else Latch(true, {}, l.woken + l.blocked, l.released, l.broadcasts + 1)
    case Wait(w) => if Known(l, w) then l else Recheck(l, w)
    case Resume(w) => if w in l.woken then Recheck(l.(woken := l.woken - {w}), w) else l
  }

  function Run(l: Latch, steps: seq<Step>): Latch {
    if |steps| == 0 then l else Apply(Run(l, steps[..|steps| - 1]), steps[|steps| - 1])
  }

  ghost predicate Inv(l: Latch) {
    && l.broadcasts == (if l.caught then 1 else 0)
    && (l.caught ==> l.blocked == {})
    && (!l.caught ==> l.woken == {} && l.released == {})
    && l.blocked !! l.woken !! l.released
  }

  /** In every interleaving: one broadcast at most, nobody released before the signal, and
      nobody left blocked after it, early or late. */
  lemma {:induction false} NoLostWakeUp(steps: seq<Step>)
    ensures Inv(Run(NEW_LATCH, steps))
  {
    if |steps| > 0 {
      NoLostWakeUp(steps[..|steps| - 1]);
    }
  }

  /** `stopping` is true from the first signal on and not before. */
  lemma {:induction false} CaughtExactlyAfterSignal(steps: seq<Step>)
    ensures Run(NEW_LATCH, steps).caught <==> Signal in steps
  {
    if |steps| > 0 {
      var front, last := steps[..|steps| - 1], steps[|steps| - 1];
      CaughtExactlyAfterSignal(front);
      assert steps == front + [last];
    }
  }

  /** The flag never goes back, and a waiter is never forgotten or released twice over. */
  lemma {:induction false} LatchIsMonotone(past: seq<Step>, future: seq<Step>)
    ensures var before, after := Run(NEW_LATCH, past), Run(NEW_LATCH, past + future);
            && (before.caught ==> after.caught)
            && before.released <= after.released
            && before.blocked + before.woken + before.released <= after.blocked + after.woken + after.released
  {
    if |future| == 0 {
      assert past + future == past;
    } else {
      var front := future[..|future| - 1];
      LatchIsMonotone(past, front);
      NoLostWakeUp(past + front);
      assert (past + future)[..|past + future| - 1] == past + front;
    }
  }

  /** Once the flag is set nobody is queued again, and a woken waiter stays woken exactly
      until its turn. */
  lemma {:induction false} AfterSignal(l: Latch, future: seq<Step>)
    requires l.caught && l.blocked == {}
    ensures var after := Run(l, future);
            && after.caught && after.blocked == {}
            && (forall w :: w in after.woken <==> w in l.woken && Resume(w) !in future)
            && (forall w :: Known(l, w) || Step.Wait(w) in future ==> Known(after, w))
  {
    if |future| > 0 {
      var front, last := future[..|future| - 1], future[|future| - 1];
      AfterSignal(l, front);
      assert future == front + [last];
    }
  }

  /** Everybody who has waited is queued, woken or released, and nobody else is; until the
      signal all of them are queued. */
  lemma {:induction false} WaitersKnownExactly(steps: seq<Step>, w: nat)
    ensures Known(Run(NEW_LATCH, steps), w) <==> Step.Wait(w) in steps
    ensures Step.Wait(w) in steps && Signal !in steps ==> w in Run(NEW_LATCH, steps).blocked
  {
    if |steps| > 0 {
      var front, last := steps[..|steps| - 1], steps[|steps| - 1];
      WaitersKnownExactly(front, w);
      NoLostWakeUp(front);
      CaughtExactlyAfterSignal(front);
      assert steps == front + [last];
    }
  }

  /** After a signal, whatever else happens: as soon as every woken waiter has had its turn,
      everybody who ever waited, before the signal or since, is released. */
  lemma {:induction false} EveryWaiterReleased(past: seq<Step>, future: seq<Step>)
    requires Run(NEW_LATCH, past).caught
    requires forall w :: w in Run(NEW_LATCH, past).woken ==> Resume(w) in future
    ensures var l := Run(NEW_LATCH, past);
            var after := Run(l, future);
            && after.blocked == {} && after.woken == {}
            && l.woken + l.released <= after.released
            && forall w :: Step.Wait(w) in past || Step.Wait(w) in future ==> w in after.released
  {
    NoLostWakeUp(past);
    var l := Run(NEW_LATCH, past);
    AfterSignal(l, future);
    assert forall w :: w in l.woken + l.released ==> Known(l, w);
    forall w | Step.Wait(w) in past ensures Known(l, w) {
      WaitersKnownExactly(past, w);
    }
  }

  /** Step j lets waiter w go: it comes after a signal, or it has waited and is resumed after
      one. */
  ghost predicate LetsGo(steps: seq<Step>, j: nat, w: nat)
    requires j < |steps|
  {
    && Signal in steps[..j]
    && ( || (steps[j] == Step.Wait(w) && Step.Wait(w) !in steps[..j])
         || (steps[j] == Resume(w) && Step.Wait(w) in steps[..j]))
  }

  /** Exactly who has been released, in every interleaving. */
  lemma {:induction false} ReleasedExactly(steps: seq<Step>, w: nat)
    ensures w in Run(NEW_LATCH, steps).released <==> exists j :: 0 <= j < |steps| && LetsGo(steps, j, w)
  {
    if |steps| > 0 {
      var n := |steps| - 1;
      var front, last := steps[..n], steps[n];
      ReleasedExactly(front, w);
      WaitersKnownExactly(front, w);
      CaughtExactlyAfterSignal(front);
      NoLostWakeUp(front);
      forall j | 0 <= j < n ensures LetsGo(steps, j, w) <==> LetsGo(front, j, w) {
        assert steps[..j] == front[..j];
      }
      assert LetsGo(steps, n, w) <==>
             front != [] && Signal in front &&
             ((last == Step.Wait(w) && Step.Wait(w) !in front) || (last == Resume(w) && Step.Wait(w) in front));
      if j :| 0 <= j < n && LetsGo(front, j, w) {
        assert LetsGo(steps, j, w);
      } else if j :| 0 <= j < |steps| && LetsGo(steps, j, w) {
        assert j == n;
      }
    }
  }

  class StopSignal {
    var caught: bool
    var blocked: set<nat>
    var woken: set<nat>
    var released: set<nat>
    var broadcasts: nat

    ghost function View(): Latch
      reads this
    {
      Latch(caught, blocked, woken, released, broadcasts)
    }

    constructor ()
      ensures View() == NEW_LATCH
    {
      caught, blocked, woken, released, broadcasts := false, {}, {}, {}, 0;
    }

    method Broadcast()
      modifies this
      ensures View() == old(View()).(woken := old(woken + blocked), blocked := {}, broadcasts := old(broadcasts) + 1)
    {
      woken, blocked, broadcasts := woken + blocked, {}, broadcasts + 1;
    }

    method Signaled()
      modifies this
      ensures View() == Apply(old(View()), Signal)
    {
      if caught {
        return;
      }
      caught := true;
      Broadcast();
    }

    /** `wait` up to its first suspension. */
    method Wait(waiter: nat) returns (ready: bool)
      requires !Known(View(), waiter)
      modifies this
      ensures View() == Apply(old(View()), Step.Wait(waiter))
      ensures ready <==> waiter in released
    {
      ready := caught;
      if ready {
        released := released + {waiter};
      } else {
        blocked := blocked + {waiter};
      }
    }

    /** A woken waiter runs again and rechecks the flag. */
    method Resume(waiter: nat) returns (ready: bool)
      requires waiter in woken
      modifies this
      ensures View() == Apply(old(View()), Step.Resume(waiter))
      ensures ready == old(caught) && (ready ==> waiter in released)
    {
      woken := woken - {waiter};
      ready := caught;
      if ready {
        released := released + {waiter};
      } else {
        blocked := blocked + {waiter};
      }
    }

    predicate Stopping(): (stopping: bool)
      reads this
      ensures stopping <==> View().caught
    {
      caught
    }
  }
}
