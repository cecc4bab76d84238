/** What every run of attach and detach calls keeps, and exactly when handles
    are fresh. A run starts from any router and is a sequence of calls. */
module RouterTraces {
  import opened EventRouter
  import Sets
  import opened Sequences

  /** One call on the router. `AttachThrows` is an attach whose `emplace` throws. */
  datatype Op<+H> = Attach(handler: H) | AttachThrows | Detach(handle: int)

  function Apply<H>(r: Router<H>, op: Op<H>): Router<H> {
    match op
    case Attach(h) => Attached(r, h)
    case AttachThrows => AttachAborted(r)
    case Detach(k) => Detached(r, k)
  }

  function Run<H>(r: Router<H>, ops: seq<Op<H>>): Router<H> {
    if |ops| == 0 then r else Apply(Run(r, ops[..|ops| - 1]), ops[|ops| - 1])
  }

  /** The attach moved the counter but its handler is not stored. */
  predicate LosesHandler<H>(r: Router<H>, op: Op<H>) {
    op.AttachThrows? || (op.Attach? && r.next in r.handlers)
  }

  /** How many attaches of the run left their handler out of the container. */
  function Lost<H>(r: Router<H>, ops: seq<Op<H>>): nat {
    if |ops| == 0 then 0
    else
      var before := ops[..|ops| - 1];
      Lost(r, before) + if LosesHandler(Run(r, before), ops[|ops| - 1]) then 1 else 0
  }

  /** The handles the run's attaches returned, in order. */
  function Returned<H>(r: Router<H>, ops: seq<Op<H>>): seq<int> {
    if |ops| == 0 then []
    else
      var before := ops[..|ops| - 1];
      Returned(r, before) + if ops[|ops| - 1].Attach? then [Run(r, before).next] else []
  }

  // ---------------------------------------------------------------- conservation

  /** `next_handle` counts the stored handlers plus the lost ones. */
  lemma {:induction false} Conservation<H>(r: Router<H>, ops: seq<Op<H>>)
    ensures Run(r, ops).next - |Run(r, ops).handlers| == r.next - |r.handlers| + Lost(r, ops)
  {
    if |ops| > 0 {
      Conservation(r, ops[..|ops| - 1]);
      var s := Run(r, ops[..|ops| - 1]);
      match ops[|ops| - 1]
      case Attach(h) =>
      case AttachThrows =>
      case Detach(k) =>
        assert k in s.handlers ==> s.handlers.Keys == (s.handlers - {k}).Keys + {k};
    }
  }

  /** Every reachable router: the counter is at least 1 and never behind the number of
      stored handlers, and live handles lie between 1 and the number of attaches so far. */
  lemma {:induction false} ReachableBounds<H>(ops: seq<Op<H>>)
    ensures var r := Run(NewRouter(), ops);
            && r.next == 1 + |r.handlers| + Lost(NewRouter(), ops)
            && 1 <= r.next <= |ops| + 1
            && forall k :: k in r.handlers ==> 1 <= k <= |ops|
  {
    Conservation<H>(NewRouter(), ops);
    if |ops| > 0 {
      ReachableBounds(ops[..|ops| - 1]);
    }
  }

  lemma {:induction false} RunConcat<H>(r: Router<H>, a: seq<Op<H>>, b: seq<Op<H>>)
    ensures Run(r, a + b) == Run(Run(r, a), b)
    ensures Lost(r, a + b) == Lost(r, a) + Lost(Run(r, a), b)
    ensures Returned(r, a + b) == Returned(r, a) + Returned(Run(r, a), b)
  {
    if |b| == 0 {
      assert a + b == a;
    } else {
      RunConcat(r, a, b[..|b| - 1]);
      assert (a + b)[..|a + b| - 1] == a + b[..|b| - 1];
    }
  }

  // ---------------------------------------------------------------- bursts

  function AttachAll<H>(hs: seq<H>): (ops: seq<Op<H>>)
    ensures |ops| == |hs|
  {
    if |hs| == 0 then [] else AttachAll(hs[..|hs| - 1]) + [Attach(hs[|hs| - 1])]
  }

  function DetachAll<H>(ks: seq<int>): (ops: seq<Op<H>>)
    ensures |ops| == |ks|
  {
    if |ks| == 0 then [] else DetachAll(ks[..|ks| - 1]) + [Detach(ks[|ks| - 1])]
  }

  /** first, first + 1, ..., first + n - 1 */
  function Consecutive(first: int, n: nat): seq<int> {
    if n == 0 then [] else Consecutive(first, n - 1) + [first + n - 1]
  }

  function Slots<H>(first: int, last: int, hs: seq<H>): map<int, H>
    requires last == first + |hs|
  {
    map k | first <= k < last && Sets.Between(first, k, last) :: hs[k - first]
  }

  /** The entries a burst of attaches would store in an empty container. */
  function Block<H>(first: int, hs: seq<H>): map<int, H> {
    Slots(first, first + |hs|, hs)
  }

  lemma {:induction false} BlockSnoc<H>(first: int, hs: seq<H>, h: H)
    ensures Block(first, hs + [h]) == Block(first, hs)[first + |hs| := h]
  {
  }

  lemma {:induction false} EmplaceOverBlock<H>(first: int, hs: seq<H>, h: H, m: map<int, H>)
    ensures Emplaced(Block(first, hs) + m, first + |hs|, h) == Block(first, hs + [h]) + m
  {
    BlockSnoc(first, hs, h);
  }

  /** How many of the n handles from `first` on are live. */
  function Taken<H>(m: map<int, H>, first: int, n: nat): nat {
    if n == 0 then 0 else Taken(m, first, n - 1) + if first + n - 1 in m then 1 else 0
  }

  lemma {:induction false} NoneTaken<H>(m: map<int, H>, first: int, n: nat)
    ensures Taken(m, first, n) == 0 <==> forall k :: first <= k < first + n ==> k !in m
  {
    if n > 0 {
      NoneTaken(m, first, n - 1);
    }
  }

  /** How many detaches of the sequence erase something. */
  function Erased<H>(m: map<int, H>, ks: seq<int>): nat {
    if |ks| == 0 then 0
    else
      var front, k := ks[..|ks| - 1], ks[|ks| - 1];
      Erased(m, front) + if k in m && k !in front then 1 else 0
  }

  lemma {:induction false} RunSnoc<H>(r: Router<H>, ops: seq<Op<H>>, op: Op<H>)
    ensures Run(r, ops + [op]) == Apply(Run(r, ops), op)
    ensures Lost(r, ops + [op]) == Lost(r, ops) + if LosesHandler(Run(r, ops), op) then 1 else 0
    ensures Returned(r, ops + [op]) == Returned(r, ops) + if op.Attach? then [Run(r, ops).next] else []
  {
    assert (ops + [op])[..|ops|] == ops;
  }

  lemma {:induction false} AttachAllSnoc<H>(front: seq<H>, h: H)
    ensures AttachAll(front + [h]) == AttachAll(front) + [Attach(h)]
  {
    assert (front + [h])[..|front|] == front;
  }

  lemma {:induction false} EmptyBlock<H>(first: int, m: map<int, H>)
    ensures Block(first, []) + m == m
  {
  }

  /** The container after a burst of attaches, one `emplace` at a time. */
  function Filled<H>(first: int, hs: seq<H>, m: map<int, H>): map<int, H> {
    if |hs| == 0 then m
    else
      var n := |hs| - 1;
      Emplaced(Filled(first, hs[..n], m), first + n, hs[n])
  }

  lemma {:induction false} NextSlotOfBlock<H>(first: int, hs: seq<H>, m: map<int, H>)
    requires |hs| > 0
    ensures var n := |hs| - 1;
            Emplaced(Block(first, hs[..n]) + m, first + n, hs[n]) == Block(first, hs) + m
  {
    var n := |hs| - 1;
    EmplaceOverBlock(first, hs[..n], hs[n], m);
    assert hs[..n] + [hs[n]] == hs;
  }

  lemma {:induction false} FilledIsBlock<H>(first: int, hs: seq<H>, m: map<int, H>)
    ensures Filled(first, hs, m) == Block(first, hs) + m
    decreases |hs|
  {
    if |hs| == 0 {
      assert hs == [];
      EmptyBlock(first, m);
    } else {
      var n := |hs| - 1;
      FilledIsBlock(first, hs[..n], m);
      NextSlotOfBlock(first, hs, m);
    }
  }

  lemma {:induction false} AttachBurstFills<H>(r: Router<H>, hs: seq<H>)
    ensures Run(r, AttachAll(hs)) == Router(r.next + |hs|, Filled(r.next, hs, r.handlers))
    decreases |hs|
  {
    if |hs| > 0 {
      var n := |hs| - 1;
      AttachBurstFills(r, hs[..n]);
      RunSnoc(r, AttachAll(hs[..n]), Attach(hs[n]));
    }
  }

  lemma {:induction false} AttachBurstRun<H>(r: Router<H>, hs: seq<H>)
    ensures Run(r, AttachAll(hs)) == Router(r.next + |hs|, Block(r.next, hs) + r.handlers)
  {
    AttachBurstFills(r, hs);
    FilledIsBlock(r.next, hs, r.handlers);
  }

  lemma {:induction false} AttachBurstReturned<H>(r: Router<H>, hs: seq<H>)
    ensures Returned(r, AttachAll(hs)) == Consecutive(r.next, |hs|)
    decreases |hs|
  {
    if |hs| > 0 {
      var front, h := SplitLast(hs);
      AttachBurstReturned(r, front);
      AttachBurstRun(r, front);
      AttachAllSnoc(front, h);
      RunSnoc(r, AttachAll(front), Attach(h));
    }
  }

  lemma {:induction false} NextAttachOfBurst<H>(r: Router<H>, front: seq<H>, h: H)
    ensures LosesHandler(Run(r, AttachAll(front)), Attach(h)) <==> r.next + |front| in r.handlers
  {
    AttachBurstRun(r, front);
  }

  lemma {:induction false} AttachBurstLost<H>(r: Router<H>, hs: seq<H>)
    ensures Lost(r, AttachAll(hs)) == Taken(r.handlers, r.next, |hs|)
    decreases |hs|
  {
    if |hs| > 0 {
      var front, h := SplitLast(hs);
      AttachBurstLost(r, front);
      AttachAllSnoc(front, h);
      RunSnoc(r, AttachAll(front), Attach(h));
      NextAttachOfBurst(r, front, h);
    }
  }

  /** A burst of attaches from any router: consecutive handles are returned, old
      entries win over new ones, and one handler is lost per handle already taken. */
  lemma {:induction false} AttachBurst<H>(r: Router<H>, hs: seq<H>)
    ensures Run(r, AttachAll(hs)) == Router(r.next + |hs|, Block(r.next, hs) + r.handlers)
    ensures Returned(r, AttachAll(hs)) == Consecutive(r.next, |hs|)
    ensures Lost(r, AttachAll(hs)) == Taken(r.handlers, r.next, |hs|)
  {
    AttachBurstRun(r, hs);
    AttachBurstReturned(r, hs);
    AttachBurstLost(r, hs);
  }

  lemma {:induction false} DetachOne<H>(next: int, m: map<int, H>, front: seq<int>, k: int)
    ensures Detached(Router(next, m - Elements(front)), k) ==
            Router(if k in m && k !in front then next - 1 else next, m - Elements(front + [k]))
  {
    assert Elements(front + [k]) == Elements(front) + {k};
    assert (m - Elements(front)) - {k} == m - (Elements(front) + {k});
    if !(k in m && k !in front) {
      assert m - Elements(front) == m - (Elements(front) + {k});
    }
  }

  lemma {:induction false} DetachBurstStep<H>(r: Router<H>, front: seq<int>, k: int)
    requires Run(r, DetachAll(front)) == Router(r.next - Erased(r.handlers, front), r.handlers - Elements(front))
    ensures Run(r, DetachAll(front + [k])) ==
            Router(r.next - Erased(r.handlers, front + [k]), r.handlers - Elements(front + [k]))
    ensures Lost(r, DetachAll(front + [k])) == Lost(r, DetachAll(front))
    ensures Returned(r, DetachAll(front + [k])) == Returned(r, DetachAll(front))
  {
    assert (front + [k])[..|front|] == front;
    RunSnoc(r, DetachAll(front), Detach(k));
    DetachOne(r.next - Erased(r.handlers, front), r.handlers, front, k);
  }

  /** A burst of detaches from any router and in any order, repeated and unknown
      handles included. */
  lemma {:induction false} DetachBurst<H>(r: Router<H>, ks: seq<int>)
    ensures Run(r, DetachAll(ks)) == Router(r.next - Erased(r.handlers, ks), r.handlers - Elements(ks))
    ensures Lost(r, DetachAll(ks)) == 0
    ensures Returned(r, DetachAll(ks)) == []
  {
    if |ks| == 0 {
      assert r.handlers - Elements(ks) == r.handlers;
    } else {
      var front, k := ks[..|ks| - 1], ks[|ks| - 1];
      DetachBurst(r, front);
      DetachBurstStep(r, front, k);
      assert ks == front + [k];
    }
  }

  // ---------------------------------------------------------------- exact reuse

  lemma {:induction false} DistinctAllErased<H>(m: map<int, H>, ks: seq<int>)
    requires Distinct(ks) && forall i :: 0 <= i < |ks| ==> ks[i] in m
    ensures Erased(m, ks) == |ks|
  {
    if |ks| > 0 {
      DistinctAllErased(m, ks[..|ks| - 1]);
    }
  }

  ghost predicate Compact<H>(r: Router<H>) {
    r.handlers.Keys == Sets.Interval(1, r.next)
  }

  /** What is live after detaching `ks` and attaching `hs`, handle by handle. */
  ghost predicate Reused<H>(r: Router<H>, after: Router<H>, ks: seq<int>, hs: seq<H>)
    requires Compact(r) && |hs| == |ks|
  {
    var first := r.next - |ks|;
    && after.next == r.next
    && (forall k {:trigger k in after.handlers} ::
          k in after.handlers <==> 1 <= k < r.next && (k in ks ==> first <= k))
    && (forall k {:trigger after.handlers[k]} ::
          k in after.handlers && k in ks ==> after.handlers[k] == hs[k - first])
    && (forall k {:trigger after.handlers[k]} ::
          k in after.handlers && k !in ks ==> after.handlers[k] == r.handlers[k])
  }

  lemma {:induction false} ReusedEntries<H>(r: Router<H>, ks: seq<int>, hs: seq<H>)
    requires Compact(r) && Elements(ks) <= r.handlers.Keys
    requires |hs| == |ks| < r.next
    ensures var first := r.next - |ks|;
            Reused(r, Router(r.next, Block(first, hs) + (r.handlers - Elements(ks))), ks, hs)
  {
  }

  /** As many handles are detached as the block holds, so the block is free exactly
      when it is what was detached. */
  lemma {:induction false} BlockFree<H>(r: Router<H>, gone: set<int>, first: int)
    requires Compact(r) && gone <= r.handlers.Keys
    requires 1 <= first <= r.next && |gone| == r.next - first
    ensures Taken(r.handlers - gone, first, r.next - first) == 0 <==> gone == Sets.Interval(first, r.next)
  {
    var block := Sets.Interval(first, r.next);
    NoneTaken(r.handlers - gone, first, r.next - first);
    if Taken(r.handlers - gone, first, r.next - first) == 0 {
      forall k | k in block ensures k in gone {
        assert k in r.handlers && k !in r.handlers - gone;
      }
      Sets.IntervalCardinality(first, r.next);
      Sets.SubsetCardinality(block, gone);
    }
  }

  lemma {:induction false} FewerThanLive<H>(r: Router<H>, ks: seq<int>)
    requires Compact(r) && r.next >= 1
    requires Distinct(ks) && forall i :: 0 <= i < |ks| ==> 1 <= ks[i] < r.next
    ensures |ks| < r.next && |Elements(ks)| == |ks| && Elements(ks) <= r.handlers.Keys
  {
    DistinctCardinality(ks);
    Sets.IntervalCardinality(1, r.next);
    Sets.SubsetCardinality(Elements(ks), Sets.Interval(1, r.next));
  }

  lemma {:induction false} RouterAfterDetaching<H>(r: Router<H>, ks: seq<int>)
    requires Distinct(ks) && forall i :: 0 <= i < |ks| ==> ks[i] in r.handlers
    ensures Run(r, DetachAll(ks)) == Router(r.next - |ks|, r.handlers - Elements(ks))
  {
    DistinctAllErased(r.handlers, ks);
    DetachBurst(r, ks);
  }

  lemma {:induction false} RunThenAttach<H>(r: Router<H>, ops: seq<Op<H>>, hs: seq<H>, mid: Router<H>)
    requires mid == Run(r, ops)
    ensures Run(r, ops + AttachAll(hs)) == Router(mid.next + |hs|, Block(mid.next, hs) + mid.handlers)
    ensures Returned(r, ops + AttachAll(hs)) == Returned(r, ops) + Consecutive(mid.next, |hs|)
  {
    RunConcat(r, ops, AttachAll(hs));
    AttachBurstRun(mid, hs);
    AttachBurstReturned(mid, hs);
  }

  lemma {:induction false} LossThenAttach<H>(r: Router<H>, ops: seq<Op<H>>, hs: seq<H>, mid: Router<H>)
    requires mid == Run(r, ops)
    ensures Lost(r, ops + AttachAll(hs)) == Lost(r, ops) + Taken(mid.handlers, mid.next, |hs|)
  {
    RunConcat(r, ops, AttachAll(hs));
    AttachBurstLost(mid, hs);
  }

  lemma {:induction false} ReuseState<H>(r: Router<H>, ks: seq<int>, hs: seq<H>)
    requires Distinct(ks) && forall i :: 0 <= i < |ks| ==> ks[i] in r.handlers
    requires |hs| == |ks|
    ensures Returned(r, DetachAll(ks) + AttachAll(hs)) == Consecutive(r.next - |ks|, |hs|)
    ensures Run(r, DetachAll(ks) + AttachAll(hs)) ==
            Router(r.next, Block(r.next - |ks|, hs) + (r.handlers - Elements(ks)))
  {
    var mid := Router(r.next - |ks|, r.handlers - Elements(ks));
    RouterAfterDetaching(r, ks);
    RunThenAttach(r, DetachAll(ks), hs, mid);
    DetachBurst(r, ks);
  }

  lemma {:induction false} ReuseTaken<H>(r: Router<H>, ks: seq<int>, hs: seq<H>)
    requires Distinct(ks) && forall i :: 0 <= i < |ks| ==> ks[i] in r.handlers
    ensures Lost(r, DetachAll(ks) + AttachAll(hs)) == Taken(r.handlers - Elements(ks), r.next - |ks|, |hs|)
  {
    var mid := Router(r.next - |ks|, r.handlers - Elements(ks));
    RouterAfterDetaching(r, ks);
    LossThenAttach(r, DetachAll(ks), hs, mid);
    DetachBurst(r, ks);
  }

  lemma {:induction false} ReuseLoss<H>(r: Router<H>, ks: seq<int>, hs: seq<H>)
    requires Compact(r) && r.next >= 1
    requires Distinct(ks) && forall i :: 0 <= i < |ks| ==> 1 <= ks[i] < r.next
    requires |hs| == |ks|
    ensures Lost(r, DetachAll(ks) + AttachAll(hs)) == 0 <==>
            Elements(ks) == Sets.Interval(r.next - |ks|, r.next)
  {
    FewerThanLive(r, ks);
    ReuseTaken(r, ks, hs);
    BlockFree(r, Elements(ks), r.next - |ks|);
  }

  /** Live handles 1..n; detach any s of them in any order, then attach s handlers.
      The handles returned are always n-s+1..n and the counter is restored. A new handler
      is stored exactly at the returned handles that had been detached. Nothing is lost
      exactly when the detached handles were the top s. */
  lemma {:induction false} ExactReuse<H>(r: Router<H>, ks: seq<int>, hs: seq<H>)
    requires Compact(r) && r.next >= 1
    requires Distinct(ks) && forall i :: 0 <= i < |ks| ==> 1 <= ks[i] < r.next
    requires |hs| == |ks|
    ensures Returned(r, DetachAll(ks) + AttachAll(hs)) == Consecutive(r.next - |ks|, |hs|)
    ensures Reused(r, Run(r, DetachAll(ks) + AttachAll(hs)), ks, hs)
    ensures Lost(r, DetachAll(ks) + AttachAll(hs)) == 0 <==>
            Elements(ks) == Sets.Interval(r.next - |ks|, r.next)
  {
    FewerThanLive(r, ks);
    ReuseState(r, ks, hs);
    ReusedEntries(r, ks, hs);
    ReuseLoss(r, ks, hs);
  }

  // ---------------------------------------------------------------- when handles are fresh

  /** Any router can go on attaching for ever without a loss exactly when every live
      handle is below the counter. */
  lemma {:induction false} SafeExactlyWhenBelow<H(!new)>(r: Router<H>)
    ensures (forall hs: seq<H> :: Lost(r, AttachAll(hs)) == 0) <==> forall k :: k in r.handlers ==> k < r.next
  {
    if k :| k in r.handlers && r.next <= k {
      var hs := seq(k - r.next + 1, i => r.handlers[k]);
      AttachBurst(r, hs);
      NoneTaken(r.handlers, r.next, |hs|);
      assert Lost(r, AttachAll(hs)) != 0;
    } else {
      forall hs: seq<H> ensures Lost(r, AttachAll(hs)) == 0 {
        AttachBurst(r, hs);
        NoneTaken(r.handlers, r.next, |hs|);
      }
    }
  }

  /** From a fresh router, after calls that lost nothing, that is the case exactly when the
      live handles are 1..next_handle-1 with no hole. */
  lemma {:induction false} SafeExactlyWhenCompact<H(!new)>(ops: seq<Op<H>>)
    requires Lost(NewRouter(), ops) == 0
    ensures var r := Run(NewRouter(), ops);
            (forall hs: seq<H> :: Lost(r, AttachAll(hs)) == 0) <==> Compact(r)
  {
    var r := Run(NewRouter(), ops);
    ReachableBounds(ops);
    SafeExactlyWhenBelow(r);
    Sets.IntervalCardinality(1, r.next);
    if forall k :: k in r.handlers ==> k < r.next {
      assert r.handlers.Keys <= Sets.Interval(1, r.next);
      Sets.SubsetCardinality(r.handlers.Keys, Sets.Interval(1, r.next));
    }
  }

  lemma {:induction false} ThreeAttached<H>(a: H, b: H, c: H)
    ensures var ops := [Attach(a), Attach(b), Attach(c)];
            && Run(NewRouter(), ops) == Router(4, map[1 := a, 2 := b, 3 := c])
            && Returned(NewRouter(), ops) == [1, 2, 3]
            && Lost(NewRouter(), ops) == 0
  {
    var r: Router<H> := NewRouter();
    var one: seq<Op<H>> := [Attach(a)];
    var two := one + [Attach(b)];
    RunSnoc(r, [], Attach(a));
    assert [] + one == one;
    RunSnoc(r, one, Attach(b));
    assert Run(r, two) == Router(3, map[1 := a, 2 := b]);
    RunSnoc(r, two, Attach(c));
    assert two + [Attach(c)] == [Attach(a), Attach(b), Attach(c)];
  }

  lemma {:induction false} DetachThenAttach<H>(r: Router<H>, k: int, h: H)
    requires k in r.handlers && r.next - 1 in r.handlers && k != r.next - 1
    ensures var ops := [Detach(k), Attach(h)];
            && Run(r, ops) == Router(r.next, r.handlers - {k})
            && Returned(r, ops) == [r.next - 1]
            && Lost(r, ops) == 1
  {
    var first: seq<Op<H>> := [Detach(k)];
    var mid := Router(r.next - 1, r.handlers - {k});
    assert Run(r, first) == mid && Lost(r, first) == 0 && Returned(r, first) == [] by {
      RunSnoc(r, [], Detach(k));
      assert [] + first == first;
    }
    RunSnoc(r, first, Attach(h));
    assert first + [Attach(h)] == [Detach(k), Attach(h)];
    assert mid.next in mid.handlers;
  }

  /** The out-of-order case by example: attach 1, 2, 3, detach 1, attach again. The new
      attach is told 3, and handle 3 keeps its old handler. */
  lemma {:induction false} OutOfOrderDetachLosesNextHandler<H>(a: H, b: H, c: H, d: H)
    ensures var ops := [Attach(a), Attach(b), Attach(c), Detach(1), Attach(d)];
            && Returned(NewRouter(), ops) == [1, 2, 3, 3]
            && Lost(NewRouter(), ops) == 1
            && Run(NewRouter(), ops) == Router(4, map[2 := b, 3 := c])
  {
    var three := map[1 := a, 2 := b, 3 := c];
    ThreeAttached(a, b, c);
    DetachThenAttach(Router(4, three), 1, d);
    RunConcat(NewRouter(), [Attach(a), Attach(b), Attach(c)], [Detach(1), Attach(d)]);
    assert [Attach(a), Attach(b), Attach(c)] + [Detach(1), Attach(d)] ==
           [Attach(a), Attach(b), Attach(c), Detach(1), Attach(d)];
    assert three - {1} == map[2 := b, 3 := c];
  }

  // ---------------------------------------------------------------- nested use

  /** Last-in, first-out use: `Close` detaches the most recent handle still open. */
  datatype Bracket<+H> = Open(handler: H) | Close

  /** `stack` holds the handles and handlers of the brackets still open, oldest first. */
  datatype Session<+H> = Session(router: Router<H>, stack: seq<(int, H)>)

  function Depth<H>(bs: seq<Bracket<H>>): int {
    if |bs| == 0 then 0 else Depth(bs[..|bs| - 1]) + if bs[|bs| - 1].Open? then 1 else -1
  }

  ghost predicate NeverUnderflows<H>(bs: seq<Bracket<H>>) {
    forall n :: 0 <= n <= |bs| ==> Depth(bs[..n]) >= 0
  }

  function StepBracket<H>(s: Session<H>, b: Bracket<H>): Session<H> {
    match b
    case Open(h) => Session(Attached(s.router, h), s.stack + [(s.router.next, h)])
    case Close =>
      if |s.stack| == 0 then s
      else Session(Detached(s.router, s.stack[|s.stack| - 1].0), s.stack[..|s.stack| - 1])
  }

  function RunBrackets<H>(base: Router<H>, bs: seq<Bracket<H>>): Session<H> {
    if |bs| == 0 then Session(base, [])
    else StepBracket(RunBrackets(base, bs[..|bs| - 1]), bs[|bs| - 1])
  }

  function Handlers<H>(stack: seq<(int, H)>): seq<H> {
    seq(|stack|, i requires 0 <= i < |stack| => stack[i].1)
  }

  ghost predicate NestedState<H>(base: Router<H>, s: Session<H>) {
    && (forall i :: 0 <= i < |s.stack| ==> s.stack[i].0 == base.next + i)
    && s.router == Router(base.next + |s.stack|, Block(base.next, Handlers(s.stack)) + base.handlers)
  }

  lemma {:induction false} OpenKeepsNesting<H>(base: Router<H>, s: Session<H>, h: H)
    requires forall k :: k in base.handlers ==> k < base.next
    requires NestedState(base, s)
    ensures NestedState(base, StepBracket(s, Open(h)))
  {
    var t := StepBracket(s, Open(h));
    assert Handlers(t.stack) == Handlers(s.stack) + [h];
    EmplaceOverBlock(base.next, Handlers(s.stack), h, base.handlers);
  }

  lemma {:induction false} DropFromBlock<H>(first: int, hs: seq<H>, h: H, m: map<int, H>)
    requires forall k :: k in m ==> k < first
    ensures first + |hs| in Block(first, hs + [h]) + m
    ensures (Block(first, hs + [h]) + m) - {first + |hs|} == Block(first, hs) + m
  {
  }

  lemma {:induction false} CloseKeepsNesting<H>(base: Router<H>, s: Session<H>)
    requires forall k :: k in base.handlers ==> k < base.next
    requires NestedState(base, s) && |s.stack| > 0
    ensures NestedState(base, StepBracket(s, Close))
  {
    var n := |s.stack| - 1;
    assert Handlers(s.stack) == Handlers(s.stack[..n]) + [s.stack[n].1];
    DropFromBlock(base.next, Handlers(s.stack[..n]), s.stack[n].1, base.handlers);
  }

  /** At every point of nested use the open handles are the consecutive handles above
      the base, each stores its own handler, the base is intact and the next handle to
      be returned is not in use. */
  lemma {:induction false} NestedInvariant<H>(base: Router<H>, bs: seq<Bracket<H>>)
    requires forall k :: k in base.handlers ==> k < base.next
    requires NeverUnderflows(bs)
    ensures var s := RunBrackets(base, bs);
            && |s.stack| == Depth(bs)
            && NestedState(base, s)
            && s.router.next !in s.router.handlers
  {
    if |bs| == 0 {
      assert Block(base.next, Handlers<H>([])) + base.handlers == base.handlers;
    } else {
      var front := bs[..|bs| - 1];
      assert forall m :: 0 <= m <= |front| ==> front[..m] == bs[..m];
      assert bs[..|bs|] == bs;
      NestedInvariant(base, front);
      match bs[|bs| - 1]
      case Open(h) => OpenKeepsNesting(base, RunBrackets(base, front), h);
      case Close => CloseKeepsNesting(base, RunBrackets(base, front));
    }
  }

  /** Nested use that closes everything it opened leaves the router as it was, and no
      attach on the way found its handle taken. */
  lemma {:induction false} NestedUseIsIdentity<H>(base: Router<H>, bs: seq<Bracket<H>>)
    requires forall k :: k in base.handlers ==> k < base.next
    requires NeverUnderflows(bs) && Depth(bs) == 0
    ensures RunBrackets(base, bs).router == base
    ensures forall n :: 0 <= n <= |bs| ==>
                          var s := RunBrackets(base, bs[..n]);
                          && s.router.next !in s.router.handlers
                          && forall i, j :: 0 <= i < j < |s.stack| ==> s.stack[i].0 != s.stack[j].0
  {
    NestedInvariant(base, bs);
    assert Block(base.next, Handlers<H>([])) + base.handlers == base.handlers;
    forall n | 0 <= n <= |bs|
      ensures var s := RunBrackets(base, bs[..n]);
              && s.router.next !in s.router.handlers
              && forall i, j :: 0 <= i < j < |s.stack| ==> s.stack[i].0 != s.stack[j].0
    {
      assert forall m :: 0 <= m <= n ==> bs[..n][..m] == bs[..m];
      NestedInvariant(base, bs[..n]);
    }
  }

  /** The attach and detach calls the brackets make. */
  function BracketCalls<H>(base: Router<H>, bs: seq<Bracket<H>>): seq<Op<H>> {
    if |bs| == 0 then []
    else
      var front := bs[..|bs| - 1];
      BracketCalls(base, front) + BracketCall(RunBrackets(base, front), bs[|bs| - 1])
  }

  function BracketCall<H>(s: Session<H>, b: Bracket<H>): seq<Op<H>> {
    match b
    case Open(h) => [Attach(h)]
    case Close => if |s.stack| == 0 then [] else [Detach(s.stack[|s.stack| - 1].0)]
  }

  lemma {:induction false} BracketCallSnoc<H>(base: Router<H>, past: seq<Op<H>>, s: Session<H>, b: Bracket<H>)
    requires s.router == Run(base, past)
    requires b.Open? ==> s.router.next !in s.router.handlers
    ensures StepBracket(s, b).router == Run(base, past + BracketCall(s, b))
    ensures Lost(base, past + BracketCall(s, b)) == Lost(base, past)
  {
    var call := BracketCall(s, b);
    if |call| == 1 {
      assert call == [call[0]];
      RunSnoc(base, past, call[0]);
    } else {
      assert past + call == past;
    }
  }

  /** Nested use is a run of the router's own calls, and that run loses no handler. */
  lemma {:induction false} NestedCallsLoseNothing<H>(base: Router<H>, bs: seq<Bracket<H>>)
    requires forall k :: k in base.handlers ==> k < base.next
    requires NeverUnderflows(bs)
    ensures Run(base, BracketCalls(base, bs)) == RunBrackets(base, bs).router
    ensures Lost(base, BracketCalls(base, bs)) == 0
  {
    if |bs| > 0 {
      var front := bs[..|bs| - 1];
      assert forall m :: 0 <= m <= |front| ==> front[..m] == bs[..m];
      NestedCallsLoseNothing(base, front);
      NestedInvariant(base, front);
      BracketCallSnoc(base, BracketCalls(base, front), RunBrackets(base, front), bs[|bs| - 1]);
    }
  }
}
