/** How the log phase can end when driver calls may throw as well: which shards fail, whose
    records are left, and whether records of an earlier process run survive. */
module InitFaults {
  import opened Outcomes
  import opened InitProtocol
  import opened InitOutcomes
  import opened InitSchedules
  import Sets

  /** The run is over, exactly the shards in `failed` have failed, and exactly those in
      `kept` have their record; `stale` are the records of an earlier process run. */
  ghost predicate FaultyEnd(s: State, failed: set<nat>, kept: set<nat>, stale: set<Record>) {
    && Finished(s)
    && (forall i: nat :: i in failed <==> i < |s.pcs| && s.pcs[i] == Failed)
    && (forall i: nat :: Shard(i) in s.log <==> i in kept)
    && (forall r :: r in stale <==> r.Stale? && r in s.log)
  }

  ghost predicate CanEndFaulty(
      n: nat, prior: Option<seq<nat>>, failed: set<nat>, kept: set<nat>, stale: set<Record>)
  {
    exists turns :: FaultyEnd(Run(Initial(n, prior), turns), failed, kept, stale)
  }

  // ---------------------------------------------------------------- a call that throws

  /** Where a shard's next statement is a driver call. */
  predicate CallsDriver(pc: PC) {
    pc == HasCollection || pc == CreateCollection || pc == DeleteMany || pc == InsertOne
  }

  /** A driver call that throws ends its shard and changes nothing else, the collection and
      the flag included; where there is no call, nothing can throw. */
  lemma {:induction false} ThrowOnlyEndsShard(s: State, t: Turn)
    requires t.shard < |s.pcs|
    ensures t.fault && CallsDriver(s.pcs[t.shard]) ==> Step(s, t) == s.(pcs := s.pcs[t.shard := Failed])
    ensures !CallsDriver(s.pcs[t.shard]) ==> Step(s, t) == Step(s, Turn(t.shard, !t.fault))
  {
  }

  /** In this turn the shard's call throws, or it is refused a collection that exists. */
  predicate Stops(s: State, t: Turn) {
    && t.shard < |s.pcs|
    && ( || (t.fault && CallsDriver(s.pcs[t.shard]))
         || (s.pcs[t.shard] == CreateCollection && s.present))
  }

  lemma {:induction false} StepStops(s: State, t: Turn, i: nat)
    requires i < |s.pcs|
    ensures Step(s, t).pcs[i] == Failed <==> s.pcs[i] == Failed || (t.shard == i && Stops(s, t))
  {
  }

  /** The k-th turn is such a turn of shard i. */
  ghost predicate StopsAt(s: State, turns: seq<Turn>, k: nat, i: nat)
    requires k < |turns|
  {
    turns[k].shard == i && Stops(Run(s, turns[..k]), turns[k])
  }

  ghost predicate StoppedIn(s: State, turns: seq<Turn>, i: nat) {
    exists k: nat :: k < |turns| && StopsAt(s, turns, k, i)
  }

  lemma {:induction false} StoppedInSnoc(s: State, turns: seq<Turn>, i: nat)
    requires |turns| > 0
    ensures var m := |turns| - 1;
            StoppedIn(s, turns, i) <==> StoppedIn(s, turns[..m], i) || StopsAt(s, turns, m, i)
  {
    var m := |turns| - 1;
    var front := turns[..m];
    forall k: nat | k < m ensures StopsAt(s, turns, k, i) <==> StopsAt(s, front, k, i) {
      assert turns[..k] == front[..k] && turns[k] == front[k];
    }
    if StoppedIn(s, front, i) {
      var k: nat :| k < m && StopsAt(s, front, k, i);
      assert StopsAt(s, turns, k, i);
    }
    if k: nat :| k < |turns| && StopsAt(s, turns, k, i) {
      assert k < m ==> StopsAt(s, front, k, i);
    }
  }

  /** In every run, exactly the shards with such a turn have failed. */
  lemma {:induction false} FailedExactly(n: nat, prior: Option<seq<nat>>, turns: seq<Turn>, i: nat)
    requires i < n
    ensures Run(Initial(n, prior), turns).pcs[i] == Failed <==> StoppedIn(Initial(n, prior), turns, i)
  {
    var s0 := Initial(n, prior);
    if |turns| > 0 {
      var m := |turns| - 1;
      FailedExactly(n, prior, turns[..m], i);
      StoppedInSnoc(s0, turns, i);
      StepStops(Run(s0, turns[..m]), turns[m], i);
    }
  }

  // ---------------------------------------------------------------- a shard whose insert throws

  ghost predicate WithoutRecord(log: seq<Record>, full: seq<Record>, f: nat) {
    forall r :: r in log <==> r in full && r != Shard(f)
  }

  /** The same run before shard f's insert. */
  ghost predicate SameData(s: State, t: State) {
    t.pcs == s.pcs && t.present == s.present && t.cleared == s.cleared && t.log == s.log
  }

  /** The same run after shard f's insert, which threw in `t`. */
  ghost predicate Muted(s: State, t: State, f: nat)
    requires f < |s.pcs|
  {
    && s.pcs[f] == Done && t.pcs == s.pcs[f := Failed]
    && t.present == s.present && t.cleared == s.cleared && WithoutRecord(t.log, s.log, f)
  }

  lemma {:induction false} StepKeepsSameData(s: State, t: State, turn: Turn)
    requires SameData(s, t)
    ensures SameData(Step(s, turn), Step(t, turn))
  {
    assert t == s.(history := t.history);
  }

  lemma {:induction false} InsertMuted(s: State, t: State, f: nat)
    requires SameData(s, t) && f < |s.pcs| && s.pcs[f] == InsertOne && Shard(f) !in s.log
    ensures Muted(Step(s, Turn(f, false)), Step(t, Turn(f, true)), f)
  {
  }

  lemma {:induction false} LogsKeepWithout(log: seq<Record>, full: seq<Record>, f: nat, i: nat)
    requires WithoutRecord(log, full, f) && i != f
    ensures WithoutRecord(log + [Shard(i)], full + [Shard(i)], f)
  {
  }

  lemma {:induction false} StepKeepsMuted(s: State, t: State, turn: Turn, f: nat)
    requires f < |s.pcs| && Muted(s, t, f)
    ensures Muted(Step(s, turn), Step(t, turn), f)
  {
    if turn.shard < |s.pcs| && turn.shard != f {
      LogsKeepWithout(t.log, s.log, f, turn.shard);
      var s', t', i := Step(s, turn), Step(t, turn), turn.shard;
      assert t.pcs[i] == s.pcs[i];
      assert t'.pcs == t.pcs[i := s'.pcs[i]] && s'.pcs == s.pcs[i := s'.pcs[i]];
      assert s.pcs[f := Failed][i := s'.pcs[i]] == s.pcs[i := s'.pcs[i]][f := Failed];
    }
  }

  lemma {:induction false} NotStoredBeforeInsert(n: nat, prior: Option<seq<nat>>, turns: seq<Turn>, f: nat)
    requires f < n && Run(Initial(n, prior), turns).pcs[f] == InsertOne
    ensures Shard(f) !in Run(Initial(n, prior), turns).log
  {
    Reachable(n, prior, turns);
    RecordSurvives(n, prior, turns, f);
    assert ShardInv(Run(Initial(n, prior), turns), f);
  }

  /** Only its insert completes a shard. */
  lemma {:induction false} StepCompletes(s: State, turn: Turn, f: nat)
    requires f < |s.pcs| && s.pcs[f] != Done && Step(s, turn).pcs[f] == Done
    ensures turn == Turn(f, false) && s.pcs[f] == InsertOne
  {
  }

  ghost predicate Tracks(s: State, t: State, f: nat)
    requires f < |s.pcs|
  {
    if s.pcs[f] == Done then Muted(s, t, f) else SameData(s, t)
  }

  lemma {:induction false} MuteStep(s: State, t: State, turn: Turn, f: nat)
    requires f < |s.pcs| && Tracks(s, t, f)
    requires s.pcs[f] == InsertOne ==> Shard(f) !in s.log
    ensures var last := if turn.shard == f && s.pcs[f] == InsertOne then Turn(f, true) else turn;
            Tracks(Step(s, turn), Step(t, last), f)
  {
    if s.pcs[f] == Done {
      StepKeepsMuted(s, t, turn, f);
    } else if turn == Turn(f, false) && s.pcs[f] == InsertOne {
      InsertMuted(s, t, f);
    } else {
      StepKeepsSameData(s, t, turn);
      if Step(s, turn).pcs[f] == Done {
        StepCompletes(s, turn, f);
      }
    }
  }

  /** Any run can go on the same way with shard f's insert throwing instead. */
  lemma {:induction false} MuteRun(n: nat, prior: Option<seq<nat>>, turns: seq<Turn>, f: nat)
    returns (muted: seq<Turn>)
    requires f < n
    ensures var s, t := Run(Initial(n, prior), turns), Run(Initial(n, prior), muted);
            Tracks(s, t, f)
  {
    if |turns| == 0 {
      muted := [];
    } else {
      var front, turn := turns[..|turns| - 1], turns[|turns| - 1];
      var before := MuteRun(n, prior, front, f);
      var s, t := Run(Initial(n, prior), front), Run(Initial(n, prior), before);
      var last := if turn.shard == f && s.pcs[f] == InsertOne then Turn(f, true) else turn;
      muted := before + [last];
      assert muted[..|muted| - 1] == before;
      if s.pcs[f] == InsertOne {
        NotStoredBeforeInsert(n, prior, front, f);
      }
      MuteStep(s, t, turn, f);
    }
  }

  lemma {:induction false} MuteOne(
      n: nat, prior: Option<seq<nat>>, failed: set<nat>, kept: set<nat>, stale: set<Record>, f: nat)
    requires CanEndFaulty(n, prior, failed, kept, stale) && f < n && f !in failed
    ensures CanEndFaulty(n, prior, failed + {f}, kept - {f}, stale)
  {
    var turns :| FaultyEnd(Run(Initial(n, prior), turns), failed, kept, stale);
    var muted := MuteRun(n, prior, turns, f);
    assert FaultyEnd(Run(Initial(n, prior), muted), failed + {f}, kept - {f}, stale);
  }

  lemma {:induction false} MuteMany(
      n: nat, prior: Option<seq<nat>>, failed: set<nat>, kept: set<nat>, stale: set<Record>)
    requires CanEndFaulty(n, prior, {}, kept, stale) && failed <= Below(n)
    ensures CanEndFaulty(n, prior, failed, kept - failed, stale)
  {
    if failed == {} {
      assert kept - failed == kept;
    } else {
      Sets.HasElement(failed);
      var f :| f in failed;
      MuteMany(n, prior, failed - {f}, kept, stale);
      MuteOne(n, prior, failed - {f}, kept - (failed - {f}), stale, f);
      assert failed - {f} + {f} == failed && kept - (failed - {f}) - {f} == kept - failed;
    }
  }

  // ---------------------------------------------------------------- all possible endings

  function AllThrow(n: nat): seq<Turn> {
    if n == 0 then [] else AllThrow(n - 1) + [Turn(n - 1, true)]
  }

  ghost predicate FirstFailed(s: State, n: nat, k: nat) {
    && |s.pcs| == n
    && forall i :: 0 <= i < n ==> s.pcs[i] == if i < k then Failed else HasCollection
  }

  lemma {:induction false} NextThrows(s: State, n: nat, k: nat)
    requires k < n && FirstFailed(s, n, k)
    ensures var s' := Step(s, Turn(k, true)); FirstFailed(s', n, k + 1) && s'.log == s.log
  {
  }

  /** The first call of each of the first k shards throws. */
  lemma {:induction false} AllThrowRun(n: nat, prior: Option<seq<nat>>, k: nat)
    requires k <= n
    ensures var s := Run(Initial(n, prior), AllThrow(k)); FirstFailed(s, n, k) && s.log == PriorLog(prior)
  {
    if k > 0 {
      AllThrowRun(n, prior, k - 1);
      NextThrows(Run(Initial(n, prior), AllThrow(k - 1)), n, k - 1);
      assert AllThrow(k)[..|AllThrow(k)| - 1] == AllThrow(k - 1);
    }
  }

  function StaleRecords(prior: Option<seq<nat>>): set<Record> {
    match prior
    case None => {}
    case Some(ids) => set i | i in ids :: Stale(i)
  }

  lemma {:induction false} StaleInPrior(prior: Option<seq<nat>>)
    ensures forall r :: r in StaleRecords(prior) <==> r in PriorLog(prior)
    ensures forall r :: r in PriorLog(prior) ==> r.Stale?
  {
    if prior.Some? {
      forall r ensures r in StaleRecords(prior) <==> r in PriorLog(prior) {
        if r in StaleRecords(prior) {
          var i :| 0 <= i < |prior.value| && prior.value[i] == r.id;
          assert PriorLog(prior)[i] == r;
        }
      }
    }
  }

  /** How the log phase can end, database faults included: any shards may fail, and the
      records left are those of any shards that completed, none only if some shard failed;
      or every shard fails and the records of the earlier process run are all still there. */
  lemma {:induction false} PossibleFaultyOutcomes(
      n: nat, prior: Option<seq<nat>>, failed: set<nat>, kept: set<nat>, stale: set<Record>)
    requires n > 0
    ensures CanEndFaulty(n, prior, failed, kept, stale) <==>
            && failed <= Below(n) && kept <= Below(n) - failed
            && ( || (stale == {} && failed + kept != {})
                 || (stale == StaleRecords(prior) && failed == Below(n)))
  {
    if CanEndFaulty(n, prior, failed, kept, stale) {
      var turns :| FaultyEnd(Run(Initial(n, prior), turns), failed, kept, stale);
      FaultyEndIsPossible(n, prior, turns, failed, kept, stale);
    }
    if failed <= Below(n) && kept <= Below(n) - failed {
      if stale == {} && failed + kept != {} {
        FailuresReached(n, prior, failed, kept);
      } else if stale == StaleRecords(prior) && failed == Below(n) {
        AllThrowRun(n, prior, n);
        StaleInPrior(prior);
        assert FaultyEnd(Run(Initial(n, prior), AllThrow(n)), failed, kept, stale);
      }
    }
  }

  lemma {:induction false} FailuresReached(n: nat, prior: Option<seq<nat>>, failed: set<nat>, kept: set<nat>)
    requires n > 0 && failed <= Below(n) && kept <= Below(n) - failed && failed + kept != {}
    ensures CanEndFaulty(n, prior, failed, kept, {})
  {
    PossibleOutcomes(n, prior, {}, failed + kept);
    var turns :| FaultFree(turns) && Ends(n, prior, turns, {}, failed + kept);
    assert FaultyEnd(Run(Initial(n, prior), turns), {}, failed + kept, {});
    MuteMany(n, prior, failed, failed + kept, {});
    assert failed + kept - failed == kept;
  }

  lemma {:induction false} FaultyEndIsPossible(
      n: nat, prior: Option<seq<nat>>, turns: seq<Turn>, failed: set<nat>, kept: set<nat>, stale: set<Record>)
    requires n > 0 && FaultyEnd(Run(Initial(n, prior), turns), failed, kept, stale)
    ensures failed <= Below(n) && kept <= Below(n) - failed
    ensures (stale == {} && failed + kept != {}) || (stale == StaleRecords(prior) && failed == Below(n))
  {
    var s := Run(Initial(n, prior), turns);
    Reachable(n, prior, turns);
    forall i | i in kept ensures i in Below(n) - failed {
      RecordSurvives(n, prior, turns, i);
      var k :| 0 <= k < |s.history| && s.history[k] == Inserted(i);
      assert s.history[k].shard < n;
      assert ShardInv(s, i);
    }
    if stale == {} {
      if failed == {} {
        CompletedRunKeepsLastWiper(n, prior, turns);
        assert s.log[0] in s.log && s.log[0] == Shard(s.log[0].id);
      }
    } else {
      Sets.HasElement(stale);
      StaleRecordsPurged(n, prior, turns);
      forall i: nat | i < n ensures i in failed {
        assert s.pcs[i] in {Done, Failed};
      }
      StaleMeansUnwiped(n, prior, s, failed, kept, stale);
    }
  }

  lemma {:induction false} StaleMeansUnwiped(
      n: nat, prior: Option<seq<nat>>, s: State, failed: set<nat>, kept: set<nat>, stale: set<Record>)
    requires LogFollowsLastWipe(prior, s) && FaultyEnd(s, failed, kept, stale) && stale != {}
    ensures stale == StaleRecords(prior)
  {
    StaleInPrior(prior);
    Sets.HasElement(stale);
    var r :| r in stale;
    if NoWipe(s.history) {
      InsertsMembers(s.history, 0);
      assert s.log == PriorLog(prior) + Inserts(s.history);
    } else {
      var cut: nat :| LastWipeAt(s, cut);
      InsertsMembers(s.history[cut + 1..], 0);
      assert false;
    }
  }
}
