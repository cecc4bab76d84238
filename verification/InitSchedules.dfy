/** Particular schedules of the log phase without database faults: shards one after
    another, and schedules that reach any final content that is possible at all. */
module InitSchedules {
  import opened Outcomes
  import opened Sequences
  import Sets
  import opened InitProtocol
  import opened InitOutcomes

  /** k turns in a row for one shard. */
  function Steps(s: State, i: nat, k: nat): (s': State)
    ensures |s'.pcs| == |s.pcs|
  {
    if k == 0 then s else Step(Steps(s, i, k - 1), Turn(i, false))
  }

  /** k turns for each shard of `order`, one shard after another. */
  function Round(s: State, order: seq<nat>, k: nat): (s': State)
    ensures |s'.pcs| == |s.pcs|
  {
    if |order| == 0 then s else Steps(Round(s, order[..|order| - 1], k), order[|order| - 1], k)
  }

  function Turns(i: nat, k: nat): seq<Turn> {
    if k == 0 then [] else Turns(i, k - 1) + [Turn(i, false)]
  }

  function RoundTurns(order: seq<nat>, k: nat): seq<Turn> {
    if |order| == 0 then [] else RoundTurns(order[..|order| - 1], k) + Turns(order[|order| - 1], k)
  }

  lemma {:induction false} RunConcat(s: State, a: seq<Turn>, b: seq<Turn>)
    ensures Run(s, a + b) == Run(Run(s, a), b)
    ensures FaultFree(a) && FaultFree(b) ==> FaultFree(a + b)
  {
    if |b| == 0 {
      assert a + b == a;
    } else {
      RunConcat(s, a, b[..|b| - 1]);
      assert (a + b)[..|a + b| - 1] == a + b[..|b| - 1];
    }
  }

  lemma {:induction false} RunTurns(s: State, i: nat, k: nat)
    ensures Run(s, Turns(i, k)) == Steps(s, i, k) && FaultFree(Turns(i, k))
  {
    if k > 0 {
      RunTurns(s, i, k - 1);
      assert Turns(i, k)[..|Turns(i, k)| - 1] == Turns(i, k - 1);
    }
  }

  lemma {:induction false} RunRound(s: State, order: seq<nat>, k: nat)
    ensures Run(s, RoundTurns(order, k)) == Round(s, order, k) && FaultFree(RoundTurns(order, k))
  {
    if |order| > 0 {
      var front, i := order[..|order| - 1], order[|order| - 1];
      RunRound(s, front, k);
      RunTurns(Round(s, front, k), i, k);
      RunConcat(s, RoundTurns(front, k), Turns(i, k));
    }
  }

  function ShardLog(order: seq<nat>): seq<Record> {
    seq(|order|, i requires 0 <= i < |order| => Shard(order[i]))
  }

  lemma {:induction false} ShardLogSnoc(order: seq<nat>, i: nat)
    ensures ShardLog(order + [i]) == ShardLog(order) + [Shard(i)]
  {
  }

  ghost predicate AllAt(s: State, order: seq<nat>, pc: PC) {
    forall k :: 0 <= k < |order| ==> order[k] < |s.pcs| && s.pcs[order[k]] == pc
  }

  ghost predicate OthersKept(s: State, order: seq<nat>, s': State) {
    && |s'.pcs| == |s.pcs|
    && forall i :: 0 <= i < |s.pcs| && i !in order ==> s'.pcs[i] == s.pcs[i]
  }

  lemma {:induction false} LastIsNew(order: seq<nat>)
    requires Distinct(order) && |order| > 0
    ensures var front, i := order[..|order| - 1], order[|order| - 1];
            Distinct(front) && i !in front && forall j :: j in order <==> j in front || j == i
  {
    assert order == order[..|order| - 1] + [order[|order| - 1]];
  }

  /** A round in which the last shard has moved too. */
  lemma {:induction false} RoundExtends(s: State, order: seq<nat>, m: State, s': State, pc: PC)
    requires Distinct(order) && |order| > 0
    requires var front, i := order[..|order| - 1], order[|order| - 1];
             AllAt(m, front, pc) && OthersKept(s, front, m) && i < |m.pcs| && s'.pcs == m.pcs[i := pc]
    ensures AllAt(s', order, pc) && OthersKept(s, order, s')
  {
    LastIsNew(order);
    var front := order[..|order| - 1];
    forall k | 0 <= k < |order| ensures order[k] < |s'.pcs| && s'.pcs[order[k]] == pc {
      assert k < |front| ==> front[k] == order[k];
    }
  }

  lemma {:induction false} OneTurn(s: State, i: nat)
    ensures Steps(s, i, 1) == Step(s, Turn(i, false))
  {
    assert Steps(s, i, 0) == s;
  }

  // ---------------------------------------------------------------- one shard after another

  /** A shard running alone from the start. */
  lemma {:induction false} Solo(s: State, i: nat)
    requires i < |s.pcs| && s.pcs[i] == HasCollection
    requires s.cleared ==> s.present
    ensures var s' := Steps(s, i, 5);
            && s'.pcs == s.pcs[i := Done] && s'.present
            && s'.cleared == s.present
            && s'.log == (if s.present && !s.cleared then [] else s.log) + [Shard(i)]
  {
    var s1 := Steps(s, i, 1);
    var s2 := Steps(s, i, 2);
    var s3 := Steps(s, i, 3);
    var s4 := Steps(s, i, 4);
    assert Steps(s, i, 0) == s && s1 == Step(s, Turn(i, false));
    if !s.present {
      assert s3.pcs[i] == Done && s3.log == s.log + [Shard(i)];
    } else if s.cleared {
      assert s3.pcs[i] == Done && s3.log == s.log + [Shard(i)];
    } else {
      assert s4.pcs[i] == InsertOne && s4.log == [];
    }
  }

  function Tail<T>(s: seq<T>): seq<T> {
    if |s| == 0 then [] else s[1..]
  }

  ghost predicate AfterSerial(n: nat, prior: Option<seq<nat>>, order: seq<nat>, s: State) {
    && AllAt(s, order, Done) && OthersKept(Initial(n, prior), order, s)
    && s.present == (prior.Some? || |order| > 0)
    && s.cleared == (if prior.Some? then |order| > 0 else |order| > 1)
    && s.log == if |order| == 0 then PriorLog(prior)
                else if prior.Some? || |order| == 1 then ShardLog(order)
                else ShardLog(Tail(order))
  }

  lemma {:induction false} SerialStep(n: nat, prior: Option<seq<nat>>, front: seq<nat>, i: nat, s: State)
    requires AfterSerial(n, prior, front, s) && i !in front && i < n == |s.pcs|
    ensures AfterSerial(n, prior, front + [i], Steps(s, i, 5))
  {
    assert s.pcs[i] == HasCollection;
    Solo(s, i);
    ShardLogSnoc(front, i);
    if |front| > 0 {
      assert (front + [i])[1..] == front[1..] + [i];
      ShardLogSnoc(front[1..], i);
    }
    assert ShardLog([]) == [];
  }

  /** Shards one after another in any order: a CONN_LOG that was there before ends with
      exactly one record for each shard, in that order; a new one ends without the record
      of the first shard, which created it, as soon as there is a second. */
  lemma {:induction false} SerialOutcome(n: nat, prior: Option<seq<nat>>, order: seq<nat>)
    requires Distinct(order) && forall k :: 0 <= k < |order| ==> order[k] < n
    ensures AfterSerial(n, prior, order, Round(Initial(n, prior), order, 5))
  {
    if |order| > 0 {
      var front, i := order[..|order| - 1], order[|order| - 1];
      LastIsNew(order);
      SerialOutcome(n, prior, front);
      SerialStep(n, prior, front, i, Round(Initial(n, prior), front, 5));
      assert order == front + [i];
    }
  }

  lemma {:induction false} PermutationLength(n: nat, order: seq<nat>)
    requires Distinct(order) && forall i: nat :: i < n <==> i in order
    ensures |order| == n
  {
    DistinctCardinality(order);
    Sets.IntervalCardinality(0, n);
    assert Elements(order) == Sets.Interval(0, n);
  }

  /** The same as a schedule from the start, when the order names every shard. */
  lemma {:induction false} SerialInit(n: nat, prior: Option<seq<nat>>, order: seq<nat>)
    requires Distinct(order) && forall i: nat :: i < n <==> i in order
    requires n > 0
    ensures var turns := RoundTurns(order, 5);
            && FaultFree(turns) && AllDone(Run(Initial(n, prior), turns))
            && Run(Initial(n, prior), turns).log ==
               if prior.Some? || n == 1 then ShardLog(order) else ShardLog(Tail(order))
  {
    PermutationLength(n, order);
    assert forall k :: 0 <= k < |order| ==> order[k] in order;
    SerialOutcome(n, prior, order);
    RunRound(Initial(n, prior), order, 5);
    var s := Round(Initial(n, prior), order, 5);
    forall i: nat | i < n ensures s.pcs[i] == Done {
      assert i in order;
      var k :| 0 <= k < |order| && order[k] == i;
    }
  }

  // ---------------------------------------------------------------- every possible final content

  /** Each shard of `order` reads has_collection and then the flag. */
  lemma {:induction false} AllReachDelete(s: State, order: seq<nat>)
    requires s.present && !s.cleared && Distinct(order) && AllAt(s, order, HasCollection)
    ensures var s' := Round(s, order, 2);
            && AllAt(s', order, DeleteMany) && OthersKept(s, order, s')
            && s' == s.(pcs := s'.pcs)
  {
    if |order| > 0 {
      var front, i := order[..|order| - 1], order[|order| - 1];
      LastIsNew(order);
      AllReachDelete(s, front);
      var m := Round(s, front, 2);
      assert m.pcs[i] == HasCollection;
      assert Steps(m, i, 0) == m && Steps(m, i, 1).pcs[i] == TestCleared;
      assert Round(s, order, 2) == m.(pcs := m.pcs[i := TestCleared][i := DeleteMany]);
      assert m.pcs[i := TestCleared][i := DeleteMany] == m.pcs[i := DeleteMany];
      RoundExtends(s, order, m, Round(s, order, 2), DeleteMany);
    }
  }

  lemma {:induction false} SetAndInsert(s: State, i: nat)
    requires i < |s.pcs| && s.pcs[i] == SetCleared
    ensures var s' := Steps(s, i, 2);
            s'.pcs == s.pcs[i := Done] && s'.log == s.log + [Shard(i)] && s'.present == s.present
  {
    assert Steps(s, i, 0) == s && Steps(s, i, 1).pcs == s.pcs[i := InsertOne];
  }

  lemma {:induction false} WipeSetInsert(s: State, i: nat)
    requires i < |s.pcs| && s.pcs[i] == DeleteMany
    ensures var s' := Steps(s, i, 3);
            s'.pcs == s.pcs[i := Done] && s'.present == s.present
  {
    assert Steps(s, i, 0) == s && Steps(s, i, 1).pcs == s.pcs[i := SetCleared];
    assert Steps(s, i, 2).pcs == s.pcs[i := InsertOne];
  }

  /** Each shard of `order` wipes, sets the flag and inserts. */
  lemma {:induction false} LosersFinish(s: State, order: seq<nat>)
    requires s.present && Distinct(order) && AllAt(s, order, DeleteMany)
    ensures var s' := Round(s, order, 3);
            AllAt(s', order, Done) && OthersKept(s, order, s') && s'.present
  {
    if |order| > 0 {
      var front, i := order[..|order| - 1], order[|order| - 1];
      LastIsNew(order);
      LosersFinish(s, front);
      var m := Round(s, front, 3);
      assert m.pcs[i] == DeleteMany;
      WipeSetInsert(m, i);
    }
  }

  /** Each shard of `order` wipes; nobody inserts yet. */
  lemma {:induction false} WinnersWipe(s: State, order: seq<nat>)
    requires s.present && Distinct(order) && AllAt(s, order, DeleteMany)
    ensures var s' := Round(s, order, 1);
            && AllAt(s', order, SetCleared) && OthersKept(s, order, s') && s'.present
            && (|order| > 0 ==> s'.log == [])
  {
    if |order| > 0 {
      var front, i := order[..|order| - 1], order[|order| - 1];
      LastIsNew(order);
      WinnersWipe(s, front);
      var m := Round(s, front, 1);
      assert m.pcs[i] == DeleteMany;
      OneTurn(m, i);
      RoundExtends(s, order, m, Round(s, order, 1), SetCleared);
    }
  }

  /** Each shard of `order` sets the flag and inserts. */
  lemma {:induction false} WinnersInsert(s: State, order: seq<nat>)
    requires s.present && Distinct(order) && AllAt(s, order, SetCleared)
    ensures var s' := Round(s, order, 2);
            && AllAt(s', order, Done) && OthersKept(s, order, s') && s'.present
            && s'.log == s.log + ShardLog(order)
  {
    if |order| > 0 {
      var front, i := order[..|order| - 1], order[|order| - 1];
      LastIsNew(order);
      WinnersInsert(s, front);
      var m := Round(s, front, 2);
      assert m.pcs[i] == SetCleared;
      SetAndInsert(m, i);
      assert order == front + [i];
      ShardLogSnoc(front, i);
    } else {
      assert ShardLog(order) == [];
    }
  }

  ghost predicate Disjoint(a: seq<nat>, b: seq<nat>) {
    forall i :: i in a ==> i !in b
  }

  lemma {:induction false} UntouchedStay(s: State, moved: seq<nat>, s': State, order: seq<nat>, pc: PC)
    requires AllAt(s, order, pc) && OthersKept(s, moved, s') && Disjoint(order, moved)
    ensures AllAt(s', order, pc)
  {
    forall k | 0 <= k < |order| ensures order[k] < |s'.pcs| && s'.pcs[order[k]] == pc {
      assert order[k] in order;
    }
  }

  /** From a present collection and a clear flag: everybody passes the clear guard, the
      losers run to completion, then the winners wipe and insert. */
  lemma {:induction false} Endgame(s: State, losers: seq<nat>, winners: seq<nat>) returns (turns: seq<Turn>, s': State)
    requires s.present && !s.cleared && |winners| > 0
    requires Distinct(losers) && Distinct(winners) && Disjoint(losers, winners)
    requires AllAt(s, losers, HasCollection) && AllAt(s, winners, HasCollection)
    ensures FaultFree(turns) && s' == Run(s, turns)
    ensures AllAt(s', losers, Done) && AllAt(s', winners, Done) && OthersKept(s, losers + winners, s')
    ensures s'.present && s'.log == ShardLog(winners)
  {
    assert Disjoint(winners, losers);
    AllReachDelete(s, losers);
    var s1 := Round(s, losers, 2);
    UntouchedStay(s, losers, s1, winners, HasCollection);
    AllReachDelete(s1, winners);
    var s2 := Round(s1, winners, 2);
    UntouchedStay(s1, winners, s2, losers, DeleteMany);
    LosersFinish(s2, losers);
    var s3 := Round(s2, losers, 3);
    UntouchedStay(s2, losers, s3, winners, DeleteMany);
    WinnersWipe(s3, winners);
    var s4 := Round(s3, winners, 1);
    UntouchedStay(s3, winners, s4, losers, Done);
    WinnersInsert(s4, winners);
    s' := Round(s4, winners, 2);
    UntouchedStay(s4, winners, s', losers, Done);
    assert [] + ShardLog(winners) == ShardLog(winners);
    turns := FiveRounds(s, losers, winners);
  }

  lemma {:induction false} FiveRounds(s: State, losers: seq<nat>, winners: seq<nat>) returns (turns: seq<Turn>)
    ensures FaultFree(turns)
    ensures Run(s, turns) ==
            Round(Round(Round(Round(Round(s, losers, 2), winners, 2), losers, 3), winners, 1), winners, 2)
  {
    turns := RoundTurns(losers, 2);
    RunRound(s, losers, 2);
    turns := AnotherRound(s, turns, winners, 2);
    turns := AnotherRound(s, turns, losers, 3);
    turns := AnotherRound(s, turns, winners, 1);
    turns := AnotherRound(s, turns, winners, 2);
  }

  lemma {:induction false} AnotherRound(s: State, before: seq<Turn>, order: seq<nat>, k: nat) returns (turns: seq<Turn>)
    requires FaultFree(before)
    ensures FaultFree(turns) && Run(s, turns) == Round(Run(s, before), order, k)
  {
    turns := before + RoundTurns(order, k);
    RunRound(Run(s, before), order, k);
    RunConcat(s, before, RoundTurns(order, k));
  }

  /** The shards below n that are (or, with `wanted` false, are not) in `kept`, in order. */
  function Listing(n: nat, kept: set<nat>, wanted: bool): seq<nat> {
    if n == 0 then []
    else Listing(n - 1, kept, wanted) + if (n - 1 in kept) == wanted then [n - 1] else []
  }

  lemma {:induction false} ListingMembers(n: nat, kept: set<nat>, wanted: bool)
    ensures Distinct(Listing(n, kept, wanted))
    ensures forall i: nat :: i in Listing(n, kept, wanted) <==> i < n && (i in kept) == wanted
  {
    if n > 0 {
      ListingMembers(n - 1, kept, wanted);
    }
  }

  lemma {:induction false} ShardLogMembers(order: seq<nat>)
    ensures forall i: nat :: Shard(i) in ShardLog(order) <==> i in order
    ensures forall r :: r in ShardLog(order) ==> r.Shard?
  {
    forall i: nat | i in order ensures Shard(i) in ShardLog(order) {
      var k :| 0 <= k < |order| && order[k] == i;
      assert ShardLog(order)[k] == Shard(i);
    }
  }

  ghost predicate KeepsExactly(s: State, kept: set<nat>) {
    && (forall r :: r in s.log ==> r.Shard?)
    && (forall i: nat :: Shard(i) in s.log <==> i in kept)
  }

  /** The run is over, exactly the shards in `refused` have failed, and exactly those in
      `kept` have their record. */
  ghost predicate Ends(n: nat, prior: Option<seq<nat>>, turns: seq<Turn>, refused: set<nat>, kept: set<nat>) {
    var s := Run(Initial(n, prior), turns);
    && Finished(s)
    && (forall i: nat :: i in refused <==> i < n && s.pcs[i] == Failed)
    && KeepsExactly(s, kept)
  }

  ghost predicate CanEndWith(n: nat, prior: Option<seq<nat>>, refused: set<nat>, kept: set<nat>) {
    exists turns :: FaultFree(turns) && Ends(n, prior, turns, refused, kept)
  }

  /** From a present collection and a clear flag, with the shards outside `idle` done, the
      idle shards can leave any nonempty set of their own records. */
  lemma {:induction false} IdleShardsChoose(s: State, kept: set<nat>, idle: set<nat>)
    returns (turns: seq<Turn>, s': State)
    requires s.present && !s.cleared && kept != {} && kept <= idle
    requires forall i :: i in idle ==> i < |s.pcs| && s.pcs[i] == HasCollection
    ensures FaultFree(turns) && s' == Run(s, turns) && KeepsExactly(s', kept) && s'.present
    ensures forall i :: 0 <= i < |s.pcs| ==> s'.pcs[i] == if i in idle then Done else s.pcs[i]
  {
    var n := |s.pcs|;
    var winners, losers := Listing(n, kept, true), Listing(n, idle - kept, true);
    ListingMembers(n, kept, true);
    ListingMembers(n, idle - kept, true);
    Sets.HasElement(kept);
    var w :| w in kept;
    assert w in winners;
    assert AllAt(s, winners, HasCollection) && AllAt(s, losers, HasCollection) by {
      assert forall k :: 0 <= k < |winners| ==> winners[k] in winners;
      assert forall k :: 0 <= k < |losers| ==> losers[k] in losers;
    }
    turns, s' := Endgame(s, losers, winners);
    ShardLogMembers(winners);
    IdleAllDone(s, s', kept, idle, losers, winners);
  }

  lemma {:induction false} IdleAllDone(
      s: State, s': State, kept: set<nat>, idle: set<nat>, losers: seq<nat>, winners: seq<nat>)
    requires AllAt(s', losers, Done) && AllAt(s', winners, Done) && OthersKept(s, losers + winners, s')
    requires forall i: nat :: i in winners <==> i < |s.pcs| && i in kept
    requires forall i: nat :: i in losers <==> i < |s.pcs| && i in idle - kept
    requires kept <= idle
    ensures forall i :: 0 <= i < |s.pcs| ==> s'.pcs[i] == if i in idle then Done else s.pcs[i]
  {
    forall i: nat | i < |s.pcs| ensures s'.pcs[i] == if i in idle then Done else s.pcs[i] {
      if i in winners {
        var k :| 0 <= k < |winners| && winners[k] == i;
      } else if i in losers {
        var k :| 0 <= k < |losers| && losers[k] == i;
      } else {
        assert i !in losers + winners;
      }
    }
  }

  function Below(n: nat): (s: set<nat>)
    ensures forall i: nat :: i in s <==> i < n
  {
    if n == 0 then {} else Below(n - 1) + {n - 1}
  }

  /** An existing collection can be left with any nonempty set of shards. */
  lemma {:induction false} ExistingEndsWith(n: nat, prior: Option<seq<nat>>, kept: set<nat>)
    requires prior.Some? && kept != {} && kept <= Below(n)
    ensures CanEndWith(n, prior, {}, kept)
  {
    var turns, s := IdleShardsChoose(Initial(n, prior), kept, Below(n));
    assert Ends(n, prior, turns, {}, kept);
  }

  /** Each shard of `order` finds the collection missing. */
  lemma {:induction false} AllFindMissing(s: State, order: seq<nat>)
    requires !s.present && Distinct(order) && AllAt(s, order, HasCollection)
    ensures var s' := Round(s, order, 1);
            && AllAt(s', order, CreateCollection) && OthersKept(s, order, s')
            && s' == s.(pcs := s'.pcs, history := s'.history)
  {
    if |order| > 0 {
      var front, i := order[..|order| - 1], order[|order| - 1];
      LastIsNew(order);
      AllFindMissing(s, front);
      var m := Round(s, front, 1);
      assert m.pcs[i] == HasCollection;
      OneTurn(m, i);
      RoundExtends(s, order, m, Round(s, order, 1), CreateCollection);
    }
  }

  /** Each shard of `order` tries to create a collection that is there by now. */
  lemma {:induction false} AllRefused(s: State, order: seq<nat>)
    requires s.present && Distinct(order) && AllAt(s, order, CreateCollection)
    ensures var s' := Round(s, order, 1);
            AllAt(s', order, Failed) && OthersKept(s, order, s') && s' == s.(pcs := s'.pcs)
  {
    if |order| > 0 {
      var front, i := order[..|order| - 1], order[|order| - 1];
      LastIsNew(order);
      AllRefused(s, front);
      var m := Round(s, front, 1);
      assert m.pcs[i] == CreateCollection;
      OneTurn(m, i);
      assert Round(s, order, 1) == m.(pcs := m.pcs[i := Failed]);
      RoundExtends(s, order, m, Round(s, order, 1), Failed);
    }
  }

  lemma {:induction false} CreatorPauses(s: State, c: nat)
    requires c < |s.pcs| && s.pcs[c] == HasCollection && !s.present
    ensures var s' := Round(s, [c], 2);
            && s'.pcs == s.pcs[c := InsertOne] && s'.present
            && s'.cleared == s.cleared && s'.log == s.log
  {
    assert [c][..0] == [] && Round(s, [], 2) == s;
    assert Steps(s, c, 0) == s && Steps(s, c, 1).pcs[c] == CreateCollection;
  }

  /** The shards in `refused` find the collection missing, c creates it, the others in
      `refused` fail; c has not inserted yet and the rest has not started. */
  lemma {:induction false} CreatorAndRefused(n: nat, refused: set<nat>, c: nat) returns (turns: seq<Turn>, s: State)
    requires c < n && c !in refused && refused <= Below(n)
    ensures FaultFree(turns) && s == Run(Initial(n, None), turns)
    ensures s.present && !s.cleared && s.log == [] && |s.pcs| == n
    ensures forall i :: 0 <= i < n ==>
              s.pcs[i] == if i == c then InsertOne else if i in refused then Failed else HasCollection
  {
    var s0 := Initial(n, None);
    var order := Listing(n, refused, true);
    ListingMembers(n, refused, true);
    assert forall k :: 0 <= k < |order| ==> order[k] in order;
    AllFindMissing(s0, order);
    var s1 := Round(s0, order, 1);
    CreatorPauses(s1, c);
    var s2 := Round(s1, [c], 2);
    AllRefused(s2, order);
    s := Round(s2, order, 1);
    turns := AnotherRound(s0, [], order, 1);
    turns := AnotherRound(s0, turns, [c], 2);
    turns := AnotherRound(s0, turns, order, 1);
    CreatorPoints(n, refused, c, order, s1, s2, s);
  }

  lemma {:induction false} CreatorPoints(
      n: nat, refused: set<nat>, c: nat, order: seq<nat>, s1: State, s2: State, s: State)
    requires c < n && c !in refused && forall i: nat :: i in order <==> i < n && i in refused
    requires OthersKept(Initial(n, None), order, s1)
    requires s2.pcs == s1.pcs[c := InsertOne]
    requires AllAt(s, order, Failed) && OthersKept(s2, order, s)
    ensures |s.pcs| == n
    ensures forall i :: 0 <= i < n ==>
              s.pcs[i] == if i == c then InsertOne else if i in refused then Failed else HasCollection
  {
    forall i: nat | i < n
      ensures s.pcs[i] == if i == c then InsertOne else if i in refused then Failed else HasCollection
    {
      if i in order {
        var k :| 0 <= k < |order| && order[k] == i;
      }
    }
  }

  lemma {:induction false} InsertNow(s: State, c: nat, kept: set<nat>)
    requires KeepsExactly(s, kept) && c < |s.pcs| && s.pcs[c] == InsertOne
    ensures var s' := Run(s, Turns(c, 1));
            && FaultFree(Turns(c, 1)) && s'.pcs == s.pcs[c := Done] && KeepsExactly(s', kept + {c})
            && s'.present == s.present && s'.cleared == s.cleared
  {
    RunTurns(s, c, 1);
    assert Steps(s, c, 0) == s;
    assert Steps(s, c, 1).log == s.log + [Shard(c)];
  }

  /** The creator inserts before anybody else starts, and is wiped later. */
  lemma {:induction false} NewEndsWithoutCreator(n: nat, refused: set<nat>, kept: set<nat>, c: nat)
    requires refused <= Below(n) && kept != {} && kept <= Below(n) - refused
    requires c < n && c !in refused && c !in kept
    ensures CanEndWith(n, None, refused, kept)
  {
    var turns, s := CreatorAndRefused(n, refused, c);
    InsertNow(s, c, {});
    var s1 := Run(s, Turns(c, 1));
    RunConcat(Initial(n, None), turns, Turns(c, 1));
    var more, s2 := IdleShardsChoose(s1, kept, Below(n) - refused - {c});
    RunConcat(Initial(n, None), turns + Turns(c, 1), more);
    assert Ends(n, None, turns + Turns(c, 1) + more, refused, kept);
  }

  lemma {:induction false} CreatorAlone(n: nat, refused: set<nat>, c: nat, others: set<nat>)
    returns (turns: seq<Turn>, s: State)
    requires refused <= Below(n) && c in Below(n) - refused && others == Below(n) - refused - {c} && others != {}
    ensures FaultFree(turns) && s == Run(Initial(n, None), turns) && KeepsExactly(s, others) && |s.pcs| == n
    ensures forall i :: 0 <= i < n ==>
              s.pcs[i] == if i == c then InsertOne else if i in refused then Failed else Done
  {
    var first, s0 := CreatorAndRefused(n, refused, c);
    var more, s1 := IdleShardsChoose(s0, others, others);
    RunConcat(Initial(n, None), first, more);
    turns, s := first + more, s1;
  }

  /** The creator inserts after everybody else has finished. */
  lemma {:induction false} NewEndsWithAll(n: nat, refused: set<nat>, c: nat, d: nat)
    requires refused <= Below(n) && {c, d} <= Below(n) - refused && c != d
    ensures CanEndWith(n, None, refused, Below(n) - refused)
  {
    var others := Below(n) - refused - {c};
    assert d in others && c in {c, d};
    var turns, s := CreatorAlone(n, refused, c, others);
    InsertNow(s, c, others);
    RunConcat(Initial(n, None), turns, Turns(c, 1));
    assert others + {c} == Below(n) - refused;
    assert Ends(n, None, turns + Turns(c, 1), refused, Below(n) - refused);
  }

  lemma {:induction false} OnlyCreatorCompletes(n: nat, refused: set<nat>, c: nat)
    requires refused <= Below(n) && Below(n) - refused == {c}
    ensures CanEndWith(n, None, refused, {c})
  {
    assert c in Below(n) - refused;
    var turns, s := CreatorAndRefused(n, refused, c);
    InsertNow(s, c, {});
    RunConcat(Initial(n, None), turns, Turns(c, 1));
    forall i: nat | i < n ensures i in refused || i == c {
      assert i in Below(n) - refused ==> i == c;
    }
    assert {} + {c} == {c};
    assert Ends(n, None, turns + Turns(c, 1), refused, {c});
  }

  /** How runs without database faults can end, refused shards included: exactly with any
      nonempty set of records of shards that were not refused; a shard can be refused only
      when CONN_LOG is new, and then any shards but one can. */
  lemma {:induction false} PossibleOutcomes(n: nat, prior: Option<seq<nat>>, refused: set<nat>, kept: set<nat>)
    requires n > 0
    ensures CanEndWith(n, prior, refused, kept) <==>
            && refused <= Below(n) && (prior.Some? ==> refused == {})
            && kept != {} && kept <= Below(n) - refused
  {
    if CanEndWith(n, prior, refused, kept) {
      var turns :| FaultFree(turns) && Ends(n, prior, turns, refused, kept);
      EndingIsPossible(n, prior, turns, refused, kept);
    } else if refused <= Below(n) && (prior.Some? ==> refused == {}) && kept != {} && kept <= Below(n) - refused {
      if prior.Some? {
        ExistingEndsWith(n, prior, kept);
      } else if c: nat :| c in Below(n) - refused && c !in kept {
        NewEndsWithoutCreator(n, refused, kept, c);
      } else {
        assert kept == Below(n) - refused;
        Sets.HasElement(kept);
        var c :| c in kept;
        if d :| d in kept && d != c {
          NewEndsWithAll(n, refused, c, d);
        } else {
          assert kept == {c};
          OnlyCreatorCompletes(n, refused, c);
        }
      }
    }
  }

  lemma {:induction false} EndingIsPossible(
      n: nat, prior: Option<seq<nat>>, turns: seq<Turn>, refused: set<nat>, kept: set<nat>)
    requires n > 0 && FaultFree(turns) && Ends(n, prior, turns, refused, kept)
    ensures refused <= Below(n) && (prior.Some? ==> refused == {})
    ensures kept != {} && kept <= Below(n) - refused
  {
    var s := Run(Initial(n, prior), turns);
    FinishedRunKeepsLastWiper(n, prior, turns);
    FaultFreeOnlyRefuses(n, prior, turns);
    Reachable(n, prior, turns);
    assert s.log[0] in s.log;
    assert Shard(s.log[0].id) in s.log;
    forall i | i in kept ensures i in Below(n) - refused {
      assert Shard(i) in s.log;
    }
    if prior.Some? {
      NobodyRefused(n, prior, turns);
      assert forall i :: 0 <= i < n ==> s.pcs[i] == Done;
    }
  }

  // ---------------------------------------------------------------- what a caller can rely on

  /** After two turns the collection is there only if one shard took both. */
  lemma {:induction false} TwoTurnsCreateAlone(n: nat, turns: seq<Turn>)
    requires FaultFree(turns) && |turns| <= 2
    ensures var s := Run(Initial(n, None), turns);
            s.present ==> forall i :: 0 <= i < |s.pcs| ==> s.pcs[i] != CreateCollection
  {
    var s := Initial(n, None);
    if |turns| > 0 {
      var front, t := turns[..|turns| - 1], turns[|turns| - 1];
      if |front| > 0 {
        assert front[..0] == [] && Run(s, front) == Step(s, front[0]);
      }
      assert Run(s, turns) == Step(Run(s, front), t);
    }
  }

  lemma {:induction false} RefusedOnCreate(s: State, t: Turn, i: nat)
    requires i < |s.pcs| && !t.fault && s.pcs[i] != Failed && Step(s, t).pcs[i] == Failed
    ensures s.present && s.pcs[i] == CreateCollection
  {
  }

  /** Three turns refuse nobody: the creator and the shard it refuses need two each. */
  lemma {:induction false} ThreeTurnsRefuseNobody(n: nat, prior: Option<seq<nat>>, turns: seq<Turn>)
    requires FaultFree(turns) && |turns| <= 3
    ensures forall i :: 0 <= i < n ==> Run(Initial(n, prior), turns).pcs[i] != Failed
  {
    if prior.Some? {
      Reachable(n, prior, turns);
      FaultFreeOnlyRefuses(n, prior, turns);
    } else if |turns| > 0 {
      var front, t := turns[..|turns| - 1], turns[|turns| - 1];
      ThreeTurnsRefuseNobody(n, prior, front);
      TwoTurnsCreateAlone(n, front);
      assert prior == None && !t.fault;
      var s := Run(Initial(n, prior), front);
      forall i: nat | i < n ensures Step(s, t).pcs[i] != Failed {
        if Step(s, t).pcs[i] == Failed {
          RefusedOnCreate(s, t, i);
        }
      }
    }
  }

  /** The shortest refusal: shards 0 and 1 both look before either creates. */
  lemma {:induction false} TwoLookersRefuseOne(n: nat)
    requires n >= 2
    ensures var turns := [Turn(0, false), Turn(1, false), Turn(0, false), Turn(1, false)];
            FaultFree(turns) && Run(Initial(n, None), turns).pcs[1] == Failed
  {
    var s := Initial(n, None);
    var one := [Turn(0, false)];
    var two := one + [Turn(1, false)];
    var three := two + [Turn(0, false)];
    var four := three + [Turn(1, false)];
    assert one[..0] == [] && two[..1] == one && three[..2] == two && four[..3] == three;
    assert Run(s, one).pcs == s.pcs[0 := CreateCollection];
    assert Run(s, two).pcs == s.pcs[0 := CreateCollection][1 := CreateCollection];
    assert Run(s, three).pcs[1] == CreateCollection && Run(s, three).present;
    assert four == [Turn(0, false), Turn(1, false), Turn(0, false), Turn(1, false)];
  }

  /** Without database faults the log phase is sure to succeed, whatever the schedule,
      exactly when CONN_LOG existed or there is no second shard. */
  lemma {:induction false} SureToSucceedExactly(n: nat, prior: Option<seq<nat>>)
    ensures (forall turns :: FaultFree(turns) && Finished(Run(Initial(n, prior), turns)) ==>
                               AllDone(Run(Initial(n, prior), turns)))
            <==> prior.Some? || n <= 1
  {
    if prior.None? && n >= 2 {
      PossibleOutcomes(n, prior, {1}, {0});
      var turns :| FaultFree(turns) && Ends(n, prior, turns, {1}, {0});
      assert Run(Initial(n, prior), turns).pcs[1] == Failed;
    } else {
      forall turns | FaultFree(turns) && Finished(Run(Initial(n, prior), turns))
        ensures AllDone(Run(Initial(n, prior), turns))
      {
        NobodyRefused(n, prior, turns);
      }
    }
  }

  lemma {:induction false} NobodyRefused(n: nat, prior: Option<seq<nat>>, turns: seq<Turn>)
    requires prior.Some? || n <= 1
    requires FaultFree(turns) && Finished(Run(Initial(n, prior), turns))
    ensures AllDone(Run(Initial(n, prior), turns))
  {
    Reachable(n, prior, turns);
    FailsExactlyWhenTwoFindMissing(n, prior, turns);
    var s := Run(Initial(n, prior), turns);
    forall i, j | FoundMissing(i) in s.history && FoundMissing(j) in s.history ensures i == j {
      var a: nat :| a < |s.history| && s.history[a] == FoundMissing(i);
      var b: nat :| b < |s.history| && s.history[b] == FoundMissing(j);
      assert s.history[a].shard < n && s.history[b].shard < n;
    }
  }

  /** One record for every shard is guaranteed, over all schedules in which all complete,
      exactly when there is one shard; whether CONN_LOG existed makes no difference. */
  lemma {:induction false} OneRecordEachGuaranteedExactly(n: nat, prior: Option<seq<nat>>)
    requires n > 0
    ensures (forall turns :: FaultFree(turns) && AllDone(Run(Initial(n, prior), turns)) ==>
                               forall i :: 0 <= i < n ==> Shard(i) in Run(Initial(n, prior), turns).log)
            <==> n == 1
  {
    if n >= 2 {
      PossibleOutcomes(n, prior, {}, {0});
      var turns :| FaultFree(turns) && Ends(n, prior, turns, {}, {0});
      var s := Run(Initial(n, prior), turns);
      assert AllDone(s) by {
        forall i: nat | i < n ensures s.pcs[i] == Done {
          assert i !in {};
        }
      }
      assert Shard(1) !in s.log;
    } else {
      forall turns | FaultFree(turns) && AllDone(Run(Initial(n, prior), turns))
        ensures forall i :: 0 <= i < n ==> Shard(i) in Run(Initial(n, prior), turns).log
      {
        CompletedRunKeepsLastWiper(n, prior, turns);
        var s := Run(Initial(n, prior), turns);
        assert s.log[0] in s.log && s.log[0] == Shard(0);
      }
    }
  }
}
