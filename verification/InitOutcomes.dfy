/** What CONN_LOG holds while the log phase runs and when it is over, over every
    interleaving of any number of shards. */
module InitOutcomes {
  import opened Outcomes
  import opened InitProtocol

  // ---------------------------------------------------------------- which records are there

  lemma {:induction false} InsertsMembers(es: seq<Event>, i: nat)
    ensures Shard(i) in Inserts(es) <==> Inserted(i) in es
    ensures forall r :: r in Inserts(es) ==> r.Shard?
  {
    if |es| > 0 {
      InsertsMembers(es[..|es| - 1], i);
      assert es == es[..|es| - 1] + [es[|es| - 1]];
    }
  }

  ghost predicate NoWipeFrom(history: seq<Event>, from: nat) {
    forall k :: from <= k < |history| ==> !history[k].Wiped?
  }

  /** The shard's insert happened and no wipe came after it. */
  ghost predicate Survives(history: seq<Event>, i: nat) {
    exists k :: 0 <= k < |history| && history[k] == Inserted(i) && NoWipeFrom(history, k + 1)
  }

  lemma {:induction false} NoWipeTail(es: seq<Event>, from: nat)
    requires from <= |es|
    ensures NoWipe(es[from..]) <==> NoWipeFrom(es, from)
  {
    if !NoWipeFrom(es, from) {
      var k :| from <= k < |es| && es[k].Wiped?;
      assert es[from..][k - from] == Wiped(es[k].shard);
    }
    if !NoWipe(es[from..]) {
      var w :| Wiped(w) in es[from..];
      var m: nat :| m < |es[from..]| && es[from..][m] == Wiped(w);
      assert es[from + m] == Wiped(w);
    }
  }

  /** In every reachable state a shard's record is in the collection exactly when it was
      inserted and not wiped since. */
  lemma {:induction false} RecordSurvives(n: nat, prior: Option<seq<nat>>, turns: seq<Turn>, i: nat)
    ensures var s := Run(Initial(n, prior), turns);
            Shard(i) in s.log <==> Survives(s.history, i)
  {
    Reachable(n, prior, turns);
    var s := Run(Initial(n, prior), turns);
    if NoWipe(s.history) {
      InsertsMembers(s.history, i);
      NoWipeTail(s.history, 0);
      assert s.history[0..] == s.history;
      if k: nat :| k < |s.history| && s.history[k] == Inserted(i) {
        assert NoWipeFrom(s.history, k + 1);
      }
    } else {
      var cut: nat :| LastWipeAt(s, cut);
      InsertsMembers(s.history[cut + 1..], i);
      SurvivesAfterCut(s, cut, i);
    }
  }

  lemma {:induction false} SurvivesAfterCut(s: State, cut: nat, i: nat)
    requires LastWipeAt(s, cut)
    ensures Survives(s.history, i) <==> Inserted(i) in s.history[cut + 1..]
  {
    var later := s.history[cut + 1..];
    NoWipeTail(s.history, cut + 1);
    if Survives(s.history, i) {
      var k: nat :| k < |s.history| && s.history[k] == Inserted(i) && NoWipeFrom(s.history, k + 1);
      assert cut < k;
      assert later[k - cut - 1] == Inserted(i);
    }
    if Inserted(i) in later {
      var m: nat :| m < |later| && later[m] == Inserted(i);
      assert s.history[cut + 1 + m] == Inserted(i) && NoWipeFrom(s.history, cut + 1 + m + 1);
    }
  }

  lemma {:induction false} InsertsDistinct(es: seq<Event>)
    requires forall i, j :: 0 <= i < j < |es| ==> es[i] != es[j]
    ensures forall i, j :: 0 <= i < j < |Inserts(es)| ==> Inserts(es)[i] != Inserts(es)[j]
  {
    if |es| > 0 {
      var front, e := es[..|es| - 1], es[|es| - 1];
      InsertsDistinct(front);
      InsertsMembers(front, e.shard);
    }
  }

  lemma {:induction false} OneCreate(n: nat, prior: Option<seq<nat>>, s: State)
    requires Inv(n, prior, s)
    ensures forall i, j | 0 <= i < |s.history| && 0 <= j < |s.history| ::
              s.history[i].Created? && s.history[j].Created? ==> i == j && prior.None?
  {
    forall i, j | 0 <= i < |s.history| && 0 <= j < |s.history| && s.history[i].Created? && s.history[j].Created?
      ensures i == j && prior.None?
    {
      assert Created(s.history[i].shard) in s.history && Created(s.history[j].shard) in s.history;
    }
  }

  ghost predicate NoShardTwice(log: seq<Record>) {
    forall a, b :: 0 <= a < b < |log| && log[b].Shard? ==> log[a] != log[b]
  }

  lemma {:induction false} PriorThenInserts(prior: Option<seq<nat>>, es: seq<Event>)
    requires forall i, j :: 0 <= i < j < |es| ==> es[i] != es[j]
    ensures NoShardTwice(PriorLog(prior) + Inserts(es)) && NoShardTwice(Inserts(es))
  {
    InsertsDistinct(es);
    InsertsMembers(es, 0);
    assert forall r :: r in PriorLog(prior) ==> r.Stale?;
  }

  /** At most one create succeeds, none on a collection that was there before, and no shard
      has two records. */
  lemma {:induction false} AtMostOnce(n: nat, prior: Option<seq<nat>>, turns: seq<Turn>)
    ensures var s := Run(Initial(n, prior), turns);
            && (forall i, j | 0 <= i < |s.history| && 0 <= j < |s.history| ::
                  s.history[i].Created? && s.history[j].Created? ==> i == j && prior.None?)
            && NoShardTwice(s.log)
  {
    Reachable(n, prior, turns);
    var s := Run(Initial(n, prior), turns);
    OneCreate(n, prior, s);
    if NoWipe(s.history) {
      PriorThenInserts(prior, s.history);
    } else {
      var cut: nat :| LastWipeAt(s, cut);
      PriorThenInserts(prior, s.history[cut + 1..]);
    }
  }

  // ---------------------------------------------------------------- stale records

  /** Once the flag is set, or any shard is past the clear guard with its delete done, no
      record of an earlier process run is left. */
  lemma {:induction false} StaleRecordsPurged(n: nat, prior: Option<seq<nat>>, turns: seq<Turn>)
    ensures var s := Run(Initial(n, prior), turns);
            s.cleared || (exists i :: 0 <= i < n && s.pcs[i] in {SetCleared, InsertOne, Done}) ==>
              forall r :: r in s.log ==> r.Shard?
  {
    Reachable(n, prior, turns);
    var s := Run(Initial(n, prior), turns);
    if s.cleared || (exists i :: 0 <= i < n && s.pcs[i] in {SetCleared, InsertOne, Done}) {
      if prior.Some? && !s.cleared {
        var i: nat :| i < n && s.pcs[i] in {SetCleared, InsertOne, Done};
        assert ShardInv(s, i);
      }
      if NoWipe(s.history) {
        InsertsMembers(s.history, 0);
        assert s.log == PriorLog(prior) + Inserts(s.history);
      } else {
        var cut: nat :| LastWipeAt(s, cut);
        InsertsMembers(s.history[cut + 1..], 0);
      }
    }
  }

  // ---------------------------------------------------------------- completed runs

  /** A completed shard's record is missing exactly when another shard wiped the collection
      after its insert. */
  lemma {:induction false} MissingExactlyWhenWipedLater(n: nat, prior: Option<seq<nat>>, turns: seq<Turn>, i: nat)
    requires i < n && Run(Initial(n, prior), turns).pcs[i] == Done
    ensures var s := Run(Initial(n, prior), turns);
            Shard(i) !in s.log <==>
            exists j, k :: 0 <= j < k < |s.history| && s.history[j] == Inserted(i)
                           && s.history[k].Wiped? && s.history[k].shard != i
  {
    Reachable(n, prior, turns);
    RecordSurvives(n, prior, turns, i);
    var s := Run(Initial(n, prior), turns);
    assert ShardInv(s, i);
    var j: nat :| j < |s.history| && s.history[j] == Inserted(i);
    if Shard(i) in s.log {
      var m: nat :| m < |s.history| && s.history[m] == Inserted(i) && NoWipeFrom(s.history, m + 1);
      assert m == j;
    } else {
      assert !NoWipeFrom(s.history, j + 1);
      var k :| j + 1 <= k < |s.history| && s.history[k].Wiped?;
      assert s.history[k].shard != i;
    }
  }

  ghost predicate WipeAfterInsert(history: seq<Event>) {
    exists j, k :: 0 <= j < k < |history| && history[j].Inserted? && history[k].Wiped?
  }

  /** A run in which every shard completes leaves one record for each shard exactly when
      no wipe came after an insert. */
  lemma {:induction false} OneRecordEachExactly(n: nat, prior: Option<seq<nat>>, turns: seq<Turn>)
    requires AllDone(Run(Initial(n, prior), turns))
    ensures var s := Run(Initial(n, prior), turns);
            (forall i :: 0 <= i < n ==> Shard(i) in s.log) <==> !WipeAfterInsert(s.history)
  {
    Reachable(n, prior, turns);
    var s := Run(Initial(n, prior), turns);
    forall i: nat | i < n
      ensures Shard(i) in s.log <==> !exists j, k :: 0 <= j < k < |s.history| && s.history[j] == Inserted(i)
                                                     && s.history[k].Wiped? && s.history[k].shard != i
    {
      MissingExactlyWhenWipedLater(n, prior, turns, i);
    }
    if WipeAfterInsert(s.history) {
      var j: nat, k: nat :| j < k < |s.history| && s.history[j].Inserted? && s.history[k].Wiped?;
      assert s.history[j] == Inserted(s.history[j].shard);
      assert s.history[j].shard < n;
      assert Shard(s.history[j].shard) !in s.log;
    }
  }

  /** When every shard completes, the collection holds only records of this run, at least
      one of them, and the record of the shard whose wipe came last. */
  lemma {:induction false} CompletedRunKeepsLastWiper(n: nat, prior: Option<seq<nat>>, turns: seq<Turn>)
    requires n > 0 && AllDone(Run(Initial(n, prior), turns))
    ensures var s := Run(Initial(n, prior), turns);
            && s.log != []
            && (forall r :: r in s.log ==> r.Shard? && r.id < n)
            && (NoWipe(s.history) ==> forall i :: 0 <= i < n ==> Shard(i) in s.log)
            && (forall cut: nat :: LastWipeAt(s, cut) ==> Shard(s.history[cut].shard) in s.log)
  {
    Reachable(n, prior, turns);
    var s := Run(Initial(n, prior), turns);
    StaleRecordsPurged(n, prior, turns);
    assert s.pcs[0] == Done;
    forall r | r in s.log ensures r.Shard? && r.id < n {
      RecordSurvives(n, prior, turns, r.id);
      var k :| 0 <= k < |s.history| && s.history[k] == Inserted(r.id);
      assert s.history[k].shard < n;
    }
    if NoWipe(s.history) {
      forall i: nat | i < n ensures Shard(i) in s.log {
        assert ShardInv(s, i);
        InsertsMembers(s.history, i);
      }
      assert Shard(0) in s.log;
    }
    forall cut: nat | LastWipeAt(s, cut) ensures Shard(s.history[cut].shard) in s.log {
      var w := s.history[cut].shard;
      assert ShardInv(s, w);
      var k: nat :| k < |s.history| && s.history[k] == Inserted(w);
      assert cut < k;
      assert s.history[cut + 1..][k - cut - 1] == Inserted(w);
      InsertsMembers(s.history[cut + 1..], w);
    }
    assert NoWipe(s.history) || exists cut :: LastWipeAt(s, cut);
  }

  // ---------------------------------------------------------------- who fails without database faults

  predicate FaultFree(turns: seq<Turn>) {
    forall i :: 0 <= i < |turns| ==> !turns[i].fault
  }

  ghost predicate OnlyRefused(s: State) {
    forall i :: 0 <= i < |s.pcs| && s.pcs[i] == Failed ==>
                  FoundMissing(i) in s.history && Created(i) !in s.history && s.present
  }

  lemma {:induction false} StepOnlyRefuses(n: nat, prior: Option<seq<nat>>, s: State, t: Turn)
    requires Inv(n, prior, s) && OnlyRefused(s) && !t.fault
    ensures OnlyRefused(Step(s, t))
  {
    var s' := Step(s, t);
    StepFrame(s, t);
    if t.shard < n {
      assert ShardInv(s, t.shard);
    }
    forall i | 0 <= i < |s.pcs| && s'.pcs[i] == Failed
      ensures FoundMissing(i) in s'.history && Created(i) !in s'.history && s'.present
    {
      if i == t.shard {
      } else {
        assert s.pcs[i] == Failed;
        if s'.history != s.history {
          var e: Event :| e.shard == t.shard && Happened(s, s', e);
        }
      }
    }
  }

  lemma {:induction false} FaultFreeOnlyRefuses(n: nat, prior: Option<seq<nat>>, turns: seq<Turn>)
    requires FaultFree(turns)
    ensures OnlyRefused(Run(Initial(n, prior), turns))
  {
    if |turns| > 0 {
      var front := turns[..|turns| - 1];
      FaultFreeOnlyRefuses(n, prior, front);
      Reachable(n, prior, front);
      StepOnlyRefuses(n, prior, Run(Initial(n, prior), front), turns[|turns| - 1]);
    }
  }

  /** Without database faults the log phase fails exactly when two shards both found the
      collection missing: all of them but the creator are refused. */
  lemma {:induction false} FailsExactlyWhenTwoFindMissing(n: nat, prior: Option<seq<nat>>, turns: seq<Turn>)
    requires FaultFree(turns) && Finished(Run(Initial(n, prior), turns))
    ensures var s := Run(Initial(n, prior), turns);
            && (forall i :: 0 <= i < n ==>
                  (s.pcs[i] == Failed <==> FoundMissing(i) in s.history && Created(i) !in s.history))
            && (AllDone(s) <==>
                forall i, j :: FoundMissing(i) in s.history && FoundMissing(j) in s.history ==> i == j)
  {
    Reachable(n, prior, turns);
    FaultFreeOnlyRefuses(n, prior, turns);
    var s := Run(Initial(n, prior), turns);
    forall i | 0 <= i < n
      ensures s.pcs[i] == Failed <==> FoundMissing(i) in s.history && Created(i) !in s.history
    {
      assert ShardInv(s, i);
    }
    if AllDone(s) {
      forall i, j | FoundMissing(i) in s.history && FoundMissing(j) in s.history ensures i == j {
        FinderCreated(n, prior, s, i);
        FinderCreated(n, prior, s, j);
      }
    } else {
      var i: nat :| i < n && s.pcs[i] == Failed;
      var c: nat :| Created(c) in s.history;
      CreatorFound(n, prior, s, c);
      assert FoundMissing(i) in s.history && FoundMissing(c) in s.history && i != c;
    }
  }

  lemma {:induction false} CreatorFound(n: nat, prior: Option<seq<nat>>, s: State, c: nat)
    requires Inv(n, prior, s) && Created(c) in s.history
    ensures c < n && FoundMissing(c) in s.history
  {
    var k: nat :| k < |s.history| && s.history[k] == Created(c);
    assert s.history[k].shard < n;
    assert ShardInv(s, c);
  }

  lemma {:induction false} FinderCreated(n: nat, prior: Option<seq<nat>>, s: State, i: nat)
    requires Inv(n, prior, s) && AllDone(s) && FoundMissing(i) in s.history
    ensures i < n && Created(i) in s.history
  {
    var k: nat :| k < |s.history| && s.history[k] == FoundMissing(i);
    assert s.history[k].shard < n;
    assert ShardInv(s, i);
  }

  lemma {:induction false} SomebodyCompletes(n: nat, prior: Option<seq<nat>>, s: State) returns (d: nat)
    requires Inv(n, prior, s) && OnlyRefused(s) && Finished(s) && n > 0
    ensures d < n && s.pcs[d] == Done
  {
    if s.pcs[0] == Done {
      d := 0;
    } else {
      var c: nat :| Created(c) in s.history;
      CreatorFound(n, prior, s, c);
      d := c;
    }
  }

  /** What a run without database faults leaves when every shard has either completed or
      been refused: records of completed shards only, at least one, the last wiper's among
      them, and every completed shard's when nobody wiped. */
  lemma {:induction false} FinishedRunKeepsLastWiper(n: nat, prior: Option<seq<nat>>, turns: seq<Turn>)
    requires n > 0 && FaultFree(turns) && Finished(Run(Initial(n, prior), turns))
    ensures var s := Run(Initial(n, prior), turns);
            && s.log != []
            && (forall r :: r in s.log ==> r.Shard? && r.id < n && s.pcs[r.id] == Done)
            && (NoWipe(s.history) ==> forall i :: 0 <= i < n && s.pcs[i] == Done ==> Shard(i) in s.log)
            && (forall cut: nat :: LastWipeAt(s, cut) ==> Shard(s.history[cut].shard) in s.log)
  {
    Reachable(n, prior, turns);
    FaultFreeOnlyRefuses(n, prior, turns);
    StaleRecordsPurged(n, prior, turns);
    var s := Run(Initial(n, prior), turns);
    var d := SomebodyCompletes(n, prior, s);
    forall r | r in s.log ensures r.Shard? && r.id < n && s.pcs[r.id] == Done {
      RecordSurvives(n, prior, turns, r.id);
      InserterDone(n, prior, s, r.id);
    }
    forall i: nat | i < n && s.pcs[i] == Done && NoWipe(s.history) ensures Shard(i) in s.log {
      assert ShardInv(s, i);
      InsertsMembers(s.history, i);
    }
    forall cut: nat | LastWipeAt(s, cut) ensures Shard(s.history[cut].shard) in s.log {
      LastWiperKept(n, prior, s, cut);
    }
    assert NoWipe(s.history) || exists cut :: LastWipeAt(s, cut);
  }

  lemma {:induction false} InserterDone(n: nat, prior: Option<seq<nat>>, s: State, i: nat)
    requires Inv(n, prior, s) && Survives(s.history, i)
    ensures i < n && s.pcs[i] == Done
  {
    var k: nat :| k < |s.history| && s.history[k] == Inserted(i) && NoWipeFrom(s.history, k + 1);
    assert s.history[k].shard < n;
    assert ShardInv(s, i);
  }

  lemma {:induction false} LastWiperKept(n: nat, prior: Option<seq<nat>>, s: State, cut: nat)
    requires Inv(n, prior, s) && OnlyRefused(s) && Finished(s) && LastWipeAt(s, cut)
    ensures Shard(s.history[cut].shard) in s.log
  {
    var w := s.history[cut].shard;
    assert s.history[cut] == Wiped(w);
    assert ShardInv(s, w) && s.pcs[w] == Done;
    var k: nat :| k < |s.history| && s.history[k] == Inserted(w);
    assert cut < k;
    assert s.history[cut + 1..][k - cut - 1] == Inserted(w);
    InsertsMembers(s.history[cut + 1..], w);
  }
}
