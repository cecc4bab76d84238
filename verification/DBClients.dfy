/** DBClients::Init: the three phases, the two flags, and the log phase run to its end
    under a scheduler that picks any unfinished shard and any driver fault. */
module DBClients {
  import opened Outcomes
  import opened InitProtocol
  import opened InitOutcomes

  // ---------------------------------------------------------------- progress

  function Rank(pc: PC): nat {
    match pc
    case HasCollection => 5
    case TestCleared => 4
    case DeleteMany => 3
    case CreateCollection => 2
    case SetCleared => 2
    case InsertOne => 1
    case Done => 0
    case Failed => 0
  }

  /** An upper bound on the turns still needed. */
  function Work(pcs: seq<PC>): nat {
    if |pcs| == 0 then 0 else Work(pcs[..|pcs| - 1]) + Rank(pcs[|pcs| - 1])
  }

  lemma {:induction false} WorkUpdate(pcs: seq<PC>, i: nat, pc: PC)
    requires i < |pcs|
    ensures Work(pcs[i := pc]) == Work(pcs) - Rank(pcs[i]) + Rank(pc)
  {
    var n := |pcs| - 1;
    if i == n {
      assert pcs[i := pc][..n] == pcs[..n];
    } else {
      WorkUpdate(pcs[..n], i, pc);
      assert pcs[i := pc][..n] == pcs[..n][i := pc];
    }
  }

  lemma {:induction false} TurnLowersRank(s: State, t: Turn)
    requires t.shard < |s.pcs| && s.pcs[t.shard] !in {Done, Failed}
    ensures var pc := Step(s, t).pcs[t.shard];
            Rank(pc) < Rank(s.pcs[t.shard]) && Step(s, t).pcs == s.pcs[t.shard := pc]
  {
  }

  /** Every turn of an unfinished shard brings the log phase closer to its end, so it ends
      after at most five turns a shard, whatever the schedule and the faults. */
  lemma {:induction false} TurnMakesProgress(s: State, t: Turn)
    requires t.shard < |s.pcs| && s.pcs[t.shard] !in {Done, Failed}
    ensures Work(Step(s, t).pcs) < Work(s.pcs)
  {
    TurnLowersRank(s, t);
    WorkUpdate(s.pcs, t.shard, Step(s, t).pcs[t.shard]);
  }

  lemma {:induction false} WorkBound(pcs: seq<PC>)
    ensures Work(pcs) <= 5 * |pcs|
  {
    if |pcs| > 0 {
      WorkBound(pcs[..|pcs| - 1]);
    }
  }

  // ---------------------------------------------------------------- the classes

  /** What all shards share: the collection CONN_LOG and the static flag `cleared`. */
  class SharedLog {
    var present: bool
    var log: seq<Record>
    var cleared: bool

    constructor (prior: Option<seq<nat>>)
      ensures present == prior.Some? && log == PriorLog(prior) && !cleared
    {
      present := prior.Some?;
      log := PriorLog(prior);
      cleared := false;
    }

    ghost function View(pcs: seq<PC>, history: seq<Event>): State
      reads this
    {
      State(pcs, present, log, cleared, history)
    }

    /** One turn of a shard that stands at `pc`. */
    method Advance(shard: nat, pc: PC, fault: bool, ghost pcs: seq<PC>, ghost history: seq<Event>)
      returns (next: PC, ghost history': seq<Event>)
      requires shard < |pcs| && pcs[shard] == pc
      modifies this
      ensures View(pcs[shard := next], history') == Step(old(View(pcs, history)), Turn(shard, fault))
    {
      next, history' := pc, history;
      match pc {
        case HasCollection =>
          if fault {
            next := Failed;
          } else if !present {
            next, history' := CreateCollection, history + [FoundMissing(shard)];
          } else {
            next := TestCleared;
          }
        case CreateCollection =>
          if fault || present {
            next := Failed;
          } else {
            present := true;
            next, history' := InsertOne, history + [Created(shard)];
          }
        case TestCleared =>
          next := if !cleared then DeleteMany else InsertOne;
        case DeleteMany =>
          if fault {
            next := Failed;
          } else {
            log := [];
            next, history' := SetCleared, history + [Wiped(shard)];
          }
        case SetCleared =>
          cleared := true;
          next := InsertOne;
        case InsertOne =>
          if fault {
            next := Failed;
          } else {
            log := log + [Shard(shard)];
            next, history' := Done, history + [Inserted(shard)];
          }
        case Done =>
        case Failed =>
      }
      assert pcs[shard := pcs[shard]] == pcs;
    }
  }

  class DBClients {
    var failedToInit: bool
    var initialized: bool

    constructor ()
      ensures !failedToInit && !initialized && Usable()
    {
      failedToInit, initialized := false, false;
    }

    /** `operator bool`. */
    predicate Usable()
      reads this
    {
      !failedToInit
    }

    /** The client assignment on every shard: all are visited, and the phase fails when
        one of them throws. */
    method AssignClients(throws: seq<bool>) returns (failed: bool)
      ensures failed <==> exists i :: 0 <= i < |throws| && throws[i]
    {
      failed := false;
      for i := 0 to |throws|
        invariant failed <==> exists j :: 0 <= j < i && throws[j]
      {
        if throws[i] {
          failed := true;
        }
      }
    }

    /** The log phase on n shards, to the end. */
    method RunLogPhase(n: nat, shared: SharedLog) returns (failed: bool, ghost turns: seq<Turn>, ghost final: State)
      modifies shared
      ensures final == Run(old(shared.View(seq(n, _ => HasCollection), [])), turns)
      ensures shared.View(final.pcs, final.history) == final
      ensures Finished(final) && (failed <==> !AllDone(final))
      ensures |turns| <= 5 * n
    {
      var pcs: seq<PC> := seq(n, _ => HasCollection);
      ghost var start := shared.View(pcs, []);
      final, turns := start, [];
      WorkBound(pcs);
      while !Finished(State(pcs, false, [], false, []))
        invariant |pcs| == n
        invariant final == Run(start, turns) && final == shared.View(pcs, final.history)
        invariant |turns| + Work(pcs) <= 5 * n
        decreases Work(pcs)
      {
        var i: nat :| i < |pcs| && pcs[i] !in {Done, Failed};
        var fault: bool := *;
        var next;
        ghost var history;
        next, history := shared.Advance(i, pcs[i], fault, pcs, final.history);
        TurnMakesProgress(final, Turn(i, fault));
        pcs := pcs[i := next];
        final := Step(final, Turn(i, fault));
        assert (turns + [Turn(i, fault)])[..|turns|] == turns;
        turns := turns + [Turn(i, fault)];
      }
      failed := exists i :: 0 <= i < |pcs| && pcs[i] == Failed;
    }

    /** `Init`. A failing start or assignment is swallowed: the flag is set and Init returns
        normally. An exception of the log phase leaves Init before `initialized` is set. */
    method Init(startThrows: bool, assignThrows: seq<bool>, shared: SharedLog)
      returns (thrown: bool, ghost turns: seq<Turn>, ghost final: State)
      modifies this, shared
      ensures failedToInit ==
              (old(failedToInit) || startThrows || exists i :: 0 <= i < |assignThrows| && assignThrows[i])
      ensures initialized == (old(initialized) || !thrown)
      ensures Usable() <==>
              old(Usable()) && !startThrows && forall i :: 0 <= i < |assignThrows| ==> !assignThrows[i]
      ensures startThrows || (exists i :: 0 <= i < |assignThrows| && assignThrows[i]) ==>
                !thrown && unchanged(shared)
      ensures !startThrows && !(exists i :: 0 <= i < |assignThrows| && assignThrows[i]) ==>
                && final == Run(old(shared.View(seq(|assignThrows|, _ => HasCollection), [])), turns)
                && shared.View(final.pcs, final.history) == final
                && Finished(final) && (thrown <==> !AllDone(final))
      // A first Init never ends with failed_to_init set and initialized clear, and the object
      // claims to be usable without being initialised exactly when the log phase threw.
      ensures !old(failedToInit) && !old(initialized) ==>
                && (failedToInit ==> initialized)
                && (Usable() && !initialized <==> thrown)
    {
      turns := [];
      final := shared.View([], []);
      if startThrows {
        failedToInit := true;
        thrown := false;
      } else {
        var assignFailed := AssignClients(assignThrows);
        if assignFailed {
          failedToInit := true;
          thrown := false;
        } else {
          thrown, turns, final := RunLogPhase(|assignThrows|, shared);
        }
      }
      if !thrown {
        initialized := true;
      }
    }
  }

  /** The first Init of a process on n shards: its log phase is a run of the protocol from
      the initial state, so everything proved about such runs holds of what it leaves. */
  method FirstInit(prior: Option<seq<nat>>, n: nat) returns (clients: DBClients, shared: SharedLog)
    requires n > 0
    ensures fresh(clients) && fresh(shared)
    ensures clients.initialized ==>
              && shared.log != []
              && forall r :: r in shared.log ==> r.Shard? && r.id < n
    ensures !clients.initialized && shared.cleared ==> forall r :: r in shared.log ==> r.Shard?
    ensures !clients.failedToInit
  {
    clients := new DBClients();
    shared := new SharedLog(prior);
    ghost var start := shared.View(seq(n, _ => HasCollection), []);
    assert start == Initial(n, prior);
    var thrown;
    ghost var turns, final;
    var noFault := seq(n, _ => false);
    thrown, turns, final := clients.Init(false, noFault, shared);
    assert final == Run(Initial(n, prior), turns);
    if !thrown {
      CompletedRunKeepsLastWiper(n, prior, turns);
    }
    StaleRecordsPurged(n, prior, turns);
  }
}
