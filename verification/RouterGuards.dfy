/** Guards over one router, in any order of creation and destruction and mixed with
    raw attach and detach calls. Every stored handler is tagged with who attached it;
    the tag is history only and influences no step. */
module RouterGuards {
  import opened EventRouter
  import T = RouterTraces
  import opened Sequences

  /** Every attach has its number; a guard's attach carries the guard's number. */
  datatype Owner = Guard(id: nat) | Raw(id: nat)

  datatype Entry<+H> = Entry(owner: Owner, handler: H)

  /** `guards` maps each live guard to its `handle` field; `created` numbers the attaches. */
  datatype System<+H> = System(router: Router<Entry<H>>, guards: map<nat, int>, created: nat)

  /** A guard is destroyed at most once, so `Destroy` of one that is not live is no step. */
  datatype Action<+H> =
    | Create(handler: H)
    | CreateThrows(handler: H)
    | Destroy(guard: nat)
    | RawAttach(handler: H)
    | RawDetach(handle: int)

  function NewSystem<H>(): System<H> {
    System(NewRouter(), map[], 0)
  }

  function Step<H>(s: System<H>, a: Action<H>): System<H> {
    match a
    case Create(h) =>
      System(Attached(s.router, Entry(Guard(s.created), h)), s.guards[s.created := s.router.next], s.created + 1)
    case CreateThrows(_) =>
      System(AttachAborted(s.router), s.guards[s.created := NO_HANDLE], s.created + 1)
    case Destroy(g) =>
      if g in s.guards then System(Detached(s.router, s.guards[g]), s.guards - {g}, s.created) else s
    case RawAttach(h) => s.(router := Attached(s.router, Entry(Raw(s.created), h)), created := s.created + 1)
    case RawDetach(k) => s.(router := Detached(s.router, k))
  }

  function Run<H>(s: System<H>, actions: seq<Action<H>>): System<H> {
    if |actions| == 0 then s else Step(Run(s, actions[..|actions| - 1]), actions[|actions| - 1])
  }

  ghost predicate Owns<H>(s: System<H>, g: nat) {
    && g in s.guards
    && s.guards[g] in s.router.handlers
    && s.router.handlers[s.guards[g]].owner == Guard(g)
  }

  // ---------------------------------------------------------------- no dangling handler

  /** Every stored handler that came from a guard sits under that guard's own handle,
      and the guard is alive. */
  ghost predicate NoDangling<H>(s: System<H>) {
    && (forall k {:trigger s.router.handlers[k]} :: k in s.router.handlers && s.router.handlers[k].owner.Guard? ==>
          && s.router.handlers[k].owner.id in s.guards
          && s.guards[s.router.handlers[k].owner.id] == k)
    && (forall g :: g in s.guards ==> g < s.created)
  }

  lemma {:induction false} StepKeepsNoDangling<H>(s: System<H>, a: Action<H>)
    requires NoDangling(s)
    ensures NoDangling(Step(s, a))
  {
  }

  lemma {:induction false} NoDanglingHandler<H>(actions: seq<Action<H>>)
    ensures NoDangling(Run(NewSystem(), actions))
  {
    if |actions| > 0 {
      var front := actions[..|actions| - 1];
      NoDanglingHandler(front);
      StepKeepsNoDangling(Run(NewSystem(), front), actions[|actions| - 1]);
    }
  }

  // ---------------------------------------------------------------- no resurrection

  ghost predicate Absent<H>(s: System<H>, o: Owner) {
    forall k {:trigger s.router.handlers[k]} :: k in s.router.handlers ==> s.router.handlers[k].owner != o
  }

  lemma {:induction false} StepKeepsAbsence<H>(s: System<H>, a: Action<H>, o: Owner)
    requires o.id < s.created && Absent(s, o)
    ensures o.id < Step(s, a).created && Absent(Step(s, a), o)
  {
  }

  lemma {:induction false} StaysAbsent<H>(past: seq<Action<H>>, future: seq<Action<H>>, o: Owner)
    requires o.id < Run(NewSystem<H>(), past).created && Absent(Run(NewSystem(), past), o)
    ensures o.id < Run(NewSystem<H>(), past + future).created && Absent(Run(NewSystem(), past + future), o)
  {
    if |future| == 0 {
      assert past + future == past;
    } else {
      var front := future[..|future| - 1];
      StaysAbsent(past, front, o);
      assert (past + future)[..|past + future| - 1] == past + front;
      StepKeepsAbsence(Run(NewSystem(), past + front), future[|future| - 1], o);
    }
  }

  /** A handler that was attached, by a guard or raw, and is not stored, because its attach
      collided or somebody detached its handle, is never invoked again: no later `call`, in
      any visiting order, reaches it. */
  lemma {:induction false} LostHandlerStaysLost<H, E>(
      past: seq<Action<H>>, future: seq<Action<H>>, o: Owner, event: E, invoked: seq<(int, Entry<H>, E)>)
    requires o.id < Run(NewSystem<H>(), past).created && Absent(Run(NewSystem(), past), o)
    requires InvokesEach(Run(NewSystem(), past + future).router.handlers, event, invoked)
    ensures forall i :: 0 <= i < |invoked| ==> invoked[i].1.owner != o
  {
    StaysAbsent(past, future, o);
    var s := Run(NewSystem(), past + future);
    forall i | 0 <= i < |invoked| ensures invoked[i].1.owner != o {
      var k := invoked[i].0;
      assert invoked[i] == (k, s.router.handlers[k], event);
      assert s.router.handlers[k].owner != o;
    }
  }

  lemma {:induction false} InvokedOnce<H, E>(handlers: map<int, H>, event: E, invoked: seq<(int, H, E)>)
    requires InvokesEach(handlers, event, invoked)
    ensures forall i, j :: 0 <= i < j < |invoked| ==> invoked[i].0 != invoked[j].0
  {
    var keys := seq(|invoked|, i requires 0 <= i < |invoked| => invoked[i].0);
    forall k ensures k in keys <==> k in handlers {
      if k in handlers {
        var i :| 0 <= i < |invoked| && invoked[i].0 == k;
        assert keys[i] == k;
      }
    }
    assert Elements(keys) == handlers.Keys;
    assert |handlers.Keys| == |handlers|;
    AsManyAsElements(keys);
    forall i, j | 0 <= i < j < |invoked| ensures invoked[i].0 != invoked[j].0 {
      assert keys[i] != keys[j];
    }
  }

  /** In any run and for any visiting order, a call reaches a guard's handler exactly when
      the guard is alive with its own handler stored, and then once, with the event. */
  lemma {:induction false} CallReachesServedGuards<H, E>(
      actions: seq<Action<H>>, g: nat, event: E, invoked: seq<(int, Entry<H>, E)>)
    requires InvokesEach(Run(NewSystem(), actions).router.handlers, event, invoked)
    ensures var s := Run(NewSystem(), actions);
            && (Owns(s, g) <==> exists i :: 0 <= i < |invoked| && invoked[i].1.owner == Guard(g))
            && (forall i :: 0 <= i < |invoked| && invoked[i].1.owner == Guard(g) ==>
                  Owns(s, g) && invoked[i] == (s.guards[g], s.router.handlers[s.guards[g]], event))
            && (forall i, j :: 0 <= i < j < |invoked| && invoked[i].1.owner == Guard(g) ==>
                                 invoked[j].1.owner != Guard(g))
  {
    var s := Run(NewSystem(), actions);
    NoDanglingHandler(actions);
    InvokedOnce(s.router.handlers, event, invoked);
    forall i | 0 <= i < |invoked| && invoked[i].1.owner == Guard(g)
      ensures Owns(s, g) && invoked[i] == (s.guards[g], s.router.handlers[s.guards[g]], event)
    {
      var k := invoked[i].0;
      assert invoked[i] == (k, s.router.handlers[k], event);
    }
    if Owns(s, g) {
      var i :| 0 <= i < |invoked| && invoked[i].0 == s.guards[g];
      assert invoked[i] == (s.guards[g], s.router.handlers[s.guards[g]], event);
    }
  }

  /** The attach of a collision is lost in that sense from its first moment. */
  lemma {:induction false} CollidedAttachIsAbsent<H>(past: seq<Action<H>>, a: Action<H>)
    requires a.Create? || a.RawAttach?
    requires var s := Run(NewSystem<H>(), past); s.router.next in s.router.handlers
    ensures var s := Run(NewSystem<H>(), past);
            var o := if a.Create? then Guard(s.created) else Raw(s.created);
            o.id < Step(s, a).created && Absent(Step(s, a), o)
  {
    OwnersNumbered(past);
  }

  ghost predicate Numbered<H>(s: System<H>) {
    forall k {:trigger s.router.handlers[k]} :: k in s.router.handlers ==> s.router.handlers[k].owner.id < s.created
  }

  lemma {:induction false} OwnersNumbered<H>(actions: seq<Action<H>>)
    ensures Numbered(Run(NewSystem(), actions))
  {
    if |actions| > 0 {
      OwnersNumbered(actions[..|actions| - 1]);
      StepKeepsNumbers(Run(NewSystem(), actions[..|actions| - 1]), actions[|actions| - 1]);
    }
  }

  lemma {:induction false} StepKeepsNumbers<H>(s: System<H>, a: Action<H>)
    requires Numbered(s)
    ensures Numbered(Step(s, a))
  {
  }

  // ---------------------------------------------------------------- aliasing

  /** Destroying the guard leaves everything somebody else has stored. */
  ghost predicate Harmless<H>(s: System<H>, g: nat) {
    var after := Step(s, Destroy(g)).router.handlers;
    forall k {:trigger s.router.handlers[k]} :: k in s.router.handlers && s.router.handlers[k].owner != Guard(g) ==>
      k in after && after[k] == s.router.handlers[k]
  }

  /** No two live guards hold the same live handle. */
  ghost predicate NoSharedHandle<H>(s: System<H>) {
    forall g, h :: g in s.guards && h in s.guards && g != h && s.guards[g] == s.guards[h] ==>
                     s.guards[g] !in s.router.handlers
  }

  lemma {:induction false} HarmlessExactly<H>(s: System<H>, g: nat)
    requires g in s.guards
    ensures Harmless(s, g) <==> s.guards[g] !in s.router.handlers || Owns(s, g)
  {
  }

  /** No raw handler is stored under a live guard's handle. */
  ghost predicate NoRawUnderGuard<H>(s: System<H>) {
    forall g :: g in s.guards && s.guards[g] in s.router.handlers ==> s.router.handlers[s.guards[g]].owner.Guard?
  }

  /** At any moment of any run, raw calls included, every live guard can be destroyed without
      taking somebody else's handler along exactly when no two live guards hold the same live
      handle and none holds the handle of a stored raw handler. */
  lemma {:induction false} DestroysHarmlessExactly<H>(actions: seq<Action<H>>)
    ensures var s := Run(NewSystem(), actions);
            (forall g :: g in s.guards ==> Harmless(s, g)) <==> NoSharedHandle(s) && NoRawUnderGuard(s)
  {
    var s := Run(NewSystem(), actions);
    NoDanglingHandler(actions);
    forall g | g in s.guards ensures Harmless(s, g) <==> s.guards[g] !in s.router.handlers || Owns(s, g) {
      HarmlessExactly(s, g);
    }
    if NoSharedHandle(s) && NoRawUnderGuard(s) {
      forall g | g in s.guards ensures Harmless(s, g) {
        if s.guards[g] in s.router.handlers {
          var o := s.router.handlers[s.guards[g]].owner;
          assert o.id in s.guards && s.guards[o.id] == s.guards[g];
        }
      }
    }
  }

  /** The same with a raw caller: guard 0 holds handle 1 and a raw caller handle 2; guard 0
      goes; guard 2 is told handle 2 and stores nothing. No two live guards share a handle,
      yet when guard 2 goes it takes the raw handler along. */
  lemma {:induction false} GuardStealsRawHandler<H>(a: H, b: H, c: H)
    ensures var s := Run(NewSystem(), [Create(a), RawAttach(b), Destroy(0), Create(c)]);
            && s.guards == map[2 := 2] && s.router.handlers == map[2 := Entry(Raw(1), b)]
            && NoSharedHandle(s) && !Harmless(s, 2)
            && Step(s, Destroy(2)).router.handlers == map[]
  {
    var s: System<H> := NewSystem();
    var one: seq<Action<H>> := [Create(a)];
    var two, three := one + [RawAttach(b)], one + [RawAttach(b)] + [Destroy(0)];
    assert one[..0] == [] && two[..1] == one && three[..2] == two;
    assert Run(s, one) == Step(s, Create(a));
    var r2 := Run(s, two);
    assert r2 == Step(Step(s, Create(a)), RawAttach(b));
    assert r2.router == Router(3, map[1 := Entry(Guard(0), a), 2 := Entry(Raw(1), b)]) && r2.guards == map[0 := 1];
    var r3 := Run(s, three);
    assert r3 == Step(r2, Destroy(0));
    assert r3 == System(Router(2, map[2 := Entry(Raw(1), b)]), map[], 2);
    var four := [Create(a), RawAttach(b), Destroy(0), Create(c)];
    assert four[..3] == three;
    assert Run(s, four) == Step(r3, Create(c));
  }

  /** Aliasing by example: guards 0, 1, 2 hold handles 1, 2, 3; guard 0 goes; guard 3 is
      told handle 3 too and stores nothing; when it goes it takes guard 2's handler along. */
  lemma {:induction false} AliasedGuardStealsHandler<H>(a: H, b: H, c: H, d: H)
    ensures var before := [Create(a), Create(b), Create(c), Destroy(0), Create(d)];
            && Owns(Run(NewSystem(), before), 2) && !Owns(Run(NewSystem(), before), 3)
            && 2 in Run(NewSystem(), before + [Destroy(3)]).guards
            && !Owns(Run(NewSystem(), before + [Destroy(3)]), 2)
  {
    var s: System<H> := NewSystem();
    var three := [Create(a), Create(b), Create(c)];
    var before := [Create(a), Create(b), Create(c), Destroy(0), Create(d)];
    assert three[..2] == [Create(a), Create(b)] && [Create(a), Create(b)][..1] == [Create(a)];
    assert [Create(a)][..0] == [];
    assert Run(s, [Create(a)]) == Step(s, Create(a));
    assert Run(s, [Create(a), Create(b)]) == Step(Step(s, Create(a)), Create(b));
    var r3 := Run(s, three);
    assert r3 == Step(Step(Step(s, Create(a)), Create(b)), Create(c));
    assert r3.router.handlers == map[1 := Entry(Guard(0), a), 2 := Entry(Guard(1), b), 3 := Entry(Guard(2), c)];
    assert r3.router.next == 4 && r3.guards == map[0 := 1, 1 := 2, 2 := 3];
    assert before[..4] == three + [Destroy(0)] && (three + [Destroy(0)])[..3] == three;
    var r4 := Run(s, before[..4]);
    assert r4 == Step(r3, Destroy(0));
    assert Run(s, before) == Step(r4, Create(d));
    assert (before + [Destroy(3)])[..5] == before;
  }

  // ---------------------------------------------------------------- conservation with guards

  /** The router call an action makes, if any. */
  function CallOf<H>(s: System<H>, a: Action<H>): seq<T.Op<Entry<H>>> {
    match a
    case Create(h) => [T.Attach(Entry(Guard(s.created), h))]
    case CreateThrows(_) => [T.AttachThrows]
    case Destroy(g) => if g in s.guards then [T.Detach(s.guards[g])] else []
    case RawAttach(h) => [T.Attach(Entry(Raw(s.created), h))]
    case RawDetach(k) => [T.Detach(k)]
  }

  function Calls<H>(s: System<H>, actions: seq<Action<H>>): seq<T.Op<Entry<H>>> {
    if |actions| == 0 then []
    else
      var front := actions[..|actions| - 1];
      Calls(s, front) + CallOf(Run(s, front), actions[|actions| - 1])
  }

  /** How many attaches of the run left their handler out of the container. */
  function Lost<H>(actions: seq<Action<H>>): nat {
    T.Lost(NewRouter(), Calls(NewSystem(), actions))
  }

  lemma {:induction false} CallSnoc<H>(past: seq<T.Op<Entry<H>>>, s: System<H>, a: Action<H>)
    requires s.router == T.Run(NewRouter(), past)
    ensures Step(s, a).router == T.Run(NewRouter(), past + CallOf(s, a))
    ensures T.Lost(NewRouter(), past + CallOf(s, a)) == T.Lost(NewRouter(), past) + LostBy(s, a)
  {
    var call := CallOf(s, a);
    if |call| == 1 {
      assert call == [call[0]];
      T.RunSnoc(NewRouter(), past, call[0]);
    } else {
      assert past + call == past;
    }
  }

  /** What one action loses: a create or raw attach that finds its handle taken, or a
      create whose `emplace` throws. */
  function LostBy<H>(s: System<H>, a: Action<H>): nat {
    match a
    case Create(_) => if s.router.next in s.router.handlers then 1 else 0
    case RawAttach(_) => if s.router.next in s.router.handlers then 1 else 0
    case CreateThrows(_) => 1
    case _ => 0
  }

  /** The guards drive the router only through its own calls. */
  lemma {:induction false} RouterRunsCalls<H>(actions: seq<Action<H>>)
    ensures Run(NewSystem(), actions).router == T.Run(NewRouter(), Calls(NewSystem(), actions))
  {
    if |actions| > 0 {
      var front := actions[..|actions| - 1];
      RouterRunsCalls(front);
      CallSnoc(Calls(NewSystem(), front), Run(NewSystem(), front), actions[|actions| - 1]);
    }
  }

  lemma {:induction false} LostSnoc<H>(actions: seq<Action<H>>)
    requires |actions| > 0
    ensures var front := actions[..|actions| - 1];
            Lost(actions) == Lost(front) + LostBy(Run(NewSystem(), front), actions[|actions| - 1])
  {
    var front := actions[..|actions| - 1];
    RouterRunsCalls(front);
    CallSnoc(Calls(NewSystem(), front), Run(NewSystem(), front), actions[|actions| - 1]);
  }

  // ---------------------------------------------------------------- a guard and its handle

  /** A guard lives until it is destroyed, with the handle its attach was told, or with
      2^64 - 1 when its attach threw. */
  lemma {:induction false} GuardKeepsHandle<H>(past: seq<Action<H>>, a: Action<H>, future: seq<Action<H>>)
    requires a.Create? || a.CreateThrows?
    ensures var before, s := Run(NewSystem<H>(), past), Run(NewSystem(), past + [a] + future);
            var g := before.created;
            && g < s.created && (g in s.guards <==> Destroy(g) !in future)
            && (g in s.guards ==>
                  s.guards[g] == if a.Create? then before.router.next else 0xFFFF_FFFF_FFFF_FFFF)
  {
    var start := past + [a];
    if |future| == 0 {
      assert start + future == start && start[..|past|] == past;
    } else {
      var front, last := future[..|future| - 1], future[|future| - 1];
      GuardKeepsHandle(past, a, front);
      assert (start + future)[..|start + future| - 1] == start + front;
      assert future == front + [last];
    }
  }

  lemma {:induction false} CallsBound<H>(actions: seq<Action<H>>)
    ensures |Calls(NewSystem<H>(), actions)| <= |actions|
  {
    if |actions| > 0 {
      CallsBound(actions[..|actions| - 1]);
    }
  }

  /** Destroying a guard whose attach threw removes nobody's handler, in any run that is too
      short to hand out 2^64 - 1 as a handle. */
  lemma {:induction false} ThrownGuardIsHarmless<H>(past: seq<Action<H>>, h: H, future: seq<Action<H>>)
    requires |past| + 1 + |future| < 0xFFFF_FFFF_FFFF_FFFF
    ensures var g := Run(NewSystem<H>(), past).created;
            var s := Run(NewSystem(), past + [CreateThrows(h)] + future);
            Step(s, Destroy(g)).router == s.router
  {
    var actions := past + [CreateThrows(h)] + future;
    GuardKeepsHandle(past, CreateThrows(h), future);
    RouterRunsCalls(actions);
    CallsBound(actions);
    T.ReachableBounds(Calls(NewSystem(), actions));
  }

  predicate OnlyGuards<H>(actions: seq<Action<H>>) {
    forall i :: 0 <= i < |actions| ==> !actions[i].RawAttach? && !actions[i].RawDetach?
  }

  ghost predicate NoRawEntry<H>(s: System<H>) {
    forall k {:trigger s.router.handlers[k]} :: k in s.router.handlers ==> s.router.handlers[k].owner.Guard?
  }

  lemma {:induction false} OnlyGuardEntries<H>(actions: seq<Action<H>>)
    requires OnlyGuards(actions)
    ensures NoRawEntry(Run(NewSystem(), actions))
  {
    if |actions| > 0 {
      var front, a := actions[..|actions| - 1], actions[|actions| - 1];
      OnlyGuardEntries(front);
      var s := Run(NewSystem(), front);
      assert NoRawEntry(Step(s, a)) by {
        assert !actions[|actions| - 1].RawAttach? && !actions[|actions| - 1].RawDetach?;
      }
    }
  }

  /** Used through guards only, the second half of that condition always holds. */
  lemma {:induction false} GuardsAloneHarmlessExactly<H>(actions: seq<Action<H>>)
    requires OnlyGuards(actions)
    ensures var s := Run(NewSystem(), actions);
            (forall g :: g in s.guards ==> Harmless(s, g)) <==> NoSharedHandle(s)
  {
    OnlyGuardEntries(actions);
    DestroysHarmlessExactly(actions);
  }

  /** A router used only through guards is empty once all guards are gone, whatever the
      order, and its counter is then 1 plus the number of handlers that were lost. */
  lemma {:induction false} TeardownEmptiesRouter<H>(actions: seq<Action<H>>)
    requires OnlyGuards(actions)
    requires Run(NewSystem(), actions).guards == map[]
    ensures Run(NewSystem(), actions).router == Router(1 + Lost(actions), map[])
    ensures Run(NewSystem(), actions).router == NewRouter() <==> Lost(actions) == 0
  {
    var s := Run(NewSystem(), actions);
    NoDanglingHandler(actions);
    OnlyGuardEntries(actions);
    assert forall k {:trigger s.router.handlers[k]} :: k !in s.router.handlers;
    assert s.router.handlers == map[];
    RouterRunsCalls(actions);
    T.ReachableBounds(Calls(NewSystem(), actions));
  }

  // ---------------------------------------------------------------- when every guard is served

  ghost predicate AllServed<H>(s: System<H>) {
    forall g :: g in s.guards ==> Owns(s, g)
  }

  lemma {:induction false} StepServes<H>(s: System<H>, a: Action<H>)
    requires NoDangling(s) && AllServed(s)
    requires !a.RawAttach? && !a.RawDetach?
    ensures AllServed(Step(s, a)) <==> !a.CreateThrows? && (a.Create? ==> s.router.next !in s.router.handlers)
  {
    if a.CreateThrows? || (a.Create? && s.router.next in s.router.handlers) {
      assert s.created in Step(s, a).guards;
      assert !Owns(Step(s, a), s.created);
    }
  }

  ghost predicate AlwaysServed<H>(actions: seq<Action<H>>) {
    forall n :: 0 <= n <= |actions| ==> AllServed(Run(NewSystem(), actions[..n]))
  }

  lemma {:induction false} AlwaysServedSnoc<H>(actions: seq<Action<H>>)
    requires |actions| > 0
    ensures AlwaysServed(actions) <==>
            AlwaysServed(actions[..|actions| - 1]) && AllServed(Run(NewSystem(), actions))
  {
    var front := actions[..|actions| - 1];
    assert forall n :: 0 <= n <= |front| ==> front[..n] == actions[..n];
    assert actions[..|actions|] == actions;
    if AlwaysServed(front) && AllServed(Run(NewSystem(), actions)) {
      forall n | 0 <= n <= |actions| ensures AllServed(Run(NewSystem(), actions[..n])) {
        if n < |actions| {
          assert actions[..n] == front[..n];
        }
      }
    }
  }

  /** With guards only, no attach ever loses its handler exactly when at every moment
      every live guard's own handler is stored under its handle; live guards then hold
      different handles. */
  lemma {:induction false} NothingLostExactlyWhenAllServed<H>(actions: seq<Action<H>>)
    requires OnlyGuards(actions)
    ensures Lost(actions) == 0 <==> AlwaysServed(actions)
    ensures Lost(actions) == 0 ==>
              var guards := Run(NewSystem(), actions).guards;
              forall g, h :: g in guards && h in guards && g != h ==> guards[g] != guards[h]
  {
    assert actions[..|actions|] == actions;
    if |actions| == 0 {
      assert forall n :: 0 <= n <= |actions| ==> actions[..n] == [];
    } else {
      var front := actions[..|actions| - 1];
      NothingLostExactlyWhenAllServed(front);
      AlwaysServedSnoc(actions);
      LostSnoc(actions);
      NoDanglingHandler(front);
      if AlwaysServed(front) {
        assert front[..|front|] == front;
        StepServes(Run(NewSystem(), front), actions[|actions| - 1]);
      }
    }
  }

  // ---------------------------------------------------------------- newest first

  /** Every destroyed guard is the newest one alive. */
  ghost predicate NewestFirst<H>(actions: seq<Action<H>>) {
    forall n :: 0 <= n < |actions| && actions[n].Destroy? ==> NewestOf(Run(NewSystem(), actions[..n]), actions[n].guard)
  }

  ghost predicate NewestOf<H>(s: System<H>, g: nat) {
    g in s.guards ==> forall h :: h in s.guards ==> h <= g
  }

  /** The live handles are 1..next_handle-1, in the order of the guards that hold them. */
  ghost predicate Stacked<H>(s: System<H>) {
    && s.router.next >= 1
    && T.Compact(s.router)
    && (forall g, h :: g in s.guards && h in s.guards && g < h ==> s.guards[g] < s.guards[h])
    && AllServed(s)
    && NoDangling(s)
    && NoRawEntry(s)
  }

  lemma {:induction false} CreateKeepsStacked<H>(s: System<H>, h: H)
    requires Stacked(s)
    ensures Stacked(Step(s, Create(h)))
    ensures s.router.next !in s.router.handlers
  {
    var t := Step(s, Create(h));
    assert s.router.next !in s.router.handlers;
    assert t.router.handlers.Keys == s.router.handlers.Keys + {s.router.next};
    assert T.Compact(t.router);
    StepKeepsNoDangling(s, Create(h));
    StepServes(s, Create(h));
  }

  lemma {:induction false} NewestHoldsTop<H>(s: System<H>, g: nat)
    requires Stacked(s) && g in s.guards && NewestOf(s, g)
    ensures s.guards[g] == s.router.next - 1 && s.router.next > 1
  {
    assert Owns(s, g);
    assert s.guards[g] in s.router.handlers.Keys;
    var top := s.router.next - 1;
    assert top in s.router.handlers;
    var h := s.router.handlers[top].owner.id;
    assert h in s.guards && s.guards[h] == top;
  }

  lemma {:induction false} DestroyKeepsStacked<H>(s: System<H>, g: nat)
    requires Stacked(s) && NewestOf(s, g)
    ensures Stacked(Step(s, Destroy(g)))
  {
    if g in s.guards {
      var t := Step(s, Destroy(g));
      NewestHoldsTop(s, g);
      assert Owns(s, g);
      assert t.router.handlers.Keys == s.router.handlers.Keys - {s.router.next - 1};
      assert T.Compact(t.router);
      StepKeepsNoDangling(s, Destroy(g));
      StepServes(s, Destroy(g));
    }
  }

  lemma {:induction false} NewestFirstStacks<H>(actions: seq<Action<H>>)
    requires OnlyGuards(actions) && NewestFirst(actions)
    requires forall i :: 0 <= i < |actions| ==> !actions[i].CreateThrows?
    ensures Stacked(Run(NewSystem(), actions)) && Lost(actions) == 0
  {
    if |actions| > 0 {
      var front, a := actions[..|actions| - 1], actions[|actions| - 1];
      assert forall n :: 0 <= n <= |front| ==> front[..n] == actions[..n];
      NewestFirstStacks(front);
      LostSnoc(actions);
      var s := Run(NewSystem(), front);
      assert a == actions[|actions| - 1] && !a.CreateThrows? && !a.RawAttach? && !a.RawDetach?;
      if a.Create? {
        CreateKeepsStacked(s, a.handler);
      } else {
        assert actions[..|front|] == front;
        DestroyKeepsStacked(s, a.guard);
      }
    }
  }

  lemma {:induction false} ThrownCreateLoses<H>(actions: seq<Action<H>>, i: nat)
    requires i < |actions| && actions[i].CreateThrows?
    ensures Lost(actions) > 0
  {
    LostSnoc(actions);
    if i < |actions| - 1 {
      ThrownCreateLoses(actions[..|actions| - 1], i);
    }
  }

  /** When guards are only ever destroyed newest first, no handler is lost exactly when no
      attach threw. */
  lemma {:induction false} NewestFirstLosesNothing<H>(actions: seq<Action<H>>)
    requires OnlyGuards(actions) && NewestFirst(actions)
    ensures Lost(actions) == 0 <==> forall i :: 0 <= i < |actions| ==> !actions[i].CreateThrows?
  {
    if i: nat :| i < |actions| && actions[i].CreateThrows? {
      ThrownCreateLoses(actions, i);
    } else {
      NewestFirstStacks(actions);
    }
  }

  // ---------------------------------------------------------------- the objects

  /** The router and the guards as objects, driven through any sequence of actions: they go
      exactly the way that the runs above describe. */
  method Play<H>(actions: seq<Action<H>>)
    returns (router: EventRouter<Entry<H>>, guards: map<nat, RouterGuard<Entry<H>>>)
    ensures fresh(router)
    ensures var s := Run(NewSystem<H>(), actions);
            && router.State() == s.router && guards.Keys == s.guards.Keys
            && forall g :: g in guards ==> guards[g].router == router && guards[g].handle == s.guards[g]
  {
    router := new EventRouter();
    guards := map[];
    var created := 0;
    for n := 0 to |actions|
      invariant var s := Run(NewSystem<H>(), actions[..n]);
                && router.State() == s.router && guards.Keys == s.guards.Keys && created == s.created
                && forall g :: g in guards ==> guards[g].router == router && guards[g].handle == s.guards[g]
    {
      assert actions[..n + 1][..n] == actions[..n];
      match actions[n] {
        case Create(h) =>
          var guard := new RouterGuard(router, Entry(Guard(created), h), false);
          guards, created := guards[created := guard], created + 1;
        case CreateThrows(h) =>
          var guard := new RouterGuard(router, Entry(Guard(created), h), true);
          guards, created := guards[created := guard], created + 1;
        case Destroy(g) =>
          if g in guards {
            var _ := guards[g].Destroy();
            guards := guards - {g};
          }
        case RawAttach(h) =>
          var _ := router.Attach(Entry(Raw(created), h), false);
          created := created + 1;
        case RawDetach(k) =>
          var _ := router.Detach(k);
      }
    }
    assert actions[..|actions|] == actions;
  }
}
