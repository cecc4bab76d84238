/** The log phase of DBClients::Init as a protocol. Every shard runs the same code over
    one shared collection CONN_LOG and one process-wide flag `cleared`. A driver call or
    a flag access is one atomic step, and shards interleave freely. */
module InitProtocol {
  import opened Outcomes

  /** What the shard does next. */
  datatype PC =
    | HasCollection
    | CreateCollection
    | TestCleared
    | DeleteMany
    | SetCleared
    | InsertOne
    | Done
    | Failed

  /** A document of CONN_LOG: left by an earlier process run, or inserted by a shard now. */
  datatype Record = Stale(id: nat) | Shard(id: nat)

  datatype Event =
    | FoundMissing(shard: nat)
    | Created(shard: nat)
    | Wiped(shard: nat)
    | Inserted(shard: nat)

  /** `log` is the content of CONN_LOG, empty while `present` is false. `history` records
      what the steps did; no step reads it. */
  datatype State = State(
    pcs: seq<PC>,
    present: bool,
    log: seq<Record>,
    cleared: bool,
    history: seq<Event>)

  /** One scheduling decision: which shard moves, and whether its driver call throws.
      A call that throws has no effect on the database. */
  datatype Turn = Turn(shard: nat, fault: bool)

  /** n shards about to start. `prior` is the CONN_LOG an earlier run left, if any. */
  function Initial(n: nat, prior: Option<seq<nat>>): State {
    State(seq(n, _ => HasCollection), prior.Some?, PriorLog(prior), false, [])
  }

  function PriorLog(prior: Option<seq<nat>>): seq<Record> {
    match prior
    case None => []
    case Some(ids) => seq(|ids|, i requires 0 <= i < |ids| => Stale(ids[i]))
  }

  function Step(s: State, t: Turn): (s': State)
    ensures |s'.pcs| == |s.pcs|
  {
    if t.shard >= |s.pcs| then s
    else
      match s.pcs[t.shard]
      case HasCollection =>
        if t.fault then Goto(s, t.shard, Failed)
        else if s.present then Goto(s, t.shard, TestCleared)
        else Noted(Goto(s, t.shard, CreateCollection), FoundMissing(t.shard))
      case CreateCollection =>
        if t.fault || s.present then Goto(s, t.shard, Failed)
        else Noted(Goto(s, t.shard, InsertOne).(present := true), Created(t.shard))
      case TestCleared =>
        Goto(s, t.shard, if s.cleared then InsertOne else DeleteMany)
      case DeleteMany =>
        if t.fault then Goto(s, t.shard, Failed)
        else Noted(Goto(s, t.shard, SetCleared).(log := []), Wiped(t.shard))
      case SetCleared =>
        Goto(s, t.shard, InsertOne).(cleared := true)
      case InsertOne =>
        if t.fault then Goto(s, t.shard, Failed)
        else Noted(Goto(s, t.shard, Done).(log := s.log + [Shard(t.shard)]), Inserted(t.shard))
      case Done => s
      case Failed => s
  }

  function Goto(s: State, i: nat, pc: PC): State
    requires i < |s.pcs|
  {
    s.(pcs := s.pcs[i := pc])
  }

  function Noted(s: State, e: Event): State {
    s.(history := s.history + [e])
  }

  function Run(s: State, turns: seq<Turn>): (s': State)
    ensures |s'.pcs| == |s.pcs|
  {
    if |turns| == 0 then s else Step(Run(s, turns[..|turns| - 1]), turns[|turns| - 1])
  }

  predicate Finished(s: State) {
    forall i :: 0 <= i < |s.pcs| ==> s.pcs[i] in {Done, Failed}
  }

  predicate AllDone(s: State) {
    forall i :: 0 <= i < |s.pcs| ==> s.pcs[i] == Done
  }

  ghost predicate NoWipe(es: seq<Event>) {
    forall i :: Wiped(i) !in es
  }

  /** The records the inserts among `es` add, in order. */
  function Inserts(es: seq<Event>): seq<Record> {
    if |es| == 0 then []
    else
      var e := es[|es| - 1];
      Inserts(es[..|es| - 1]) + if e.Inserted? then [Shard(e.shard)] else []
  }

  // ---------------------------------------------------------------- invariants

  /** The collection holds exactly what was inserted after the last wipe. */
  ghost predicate LogFollowsLastWipe(prior: Option<seq<nat>>, s: State) {
    if NoWipe(s.history) then s.log == PriorLog(prior) + Inserts(s.history)
    else exists cut :: LastWipeAt(s, cut)
  }

  ghost predicate LastWipeAt(s: State, cut: nat) {
    && cut < |s.history|
    && s.history[cut].Wiped?
    && NoWipe(s.history[cut + 1..])
    && s.log == Inserts(s.history[cut + 1..])
  }

  /** Where a shard stands determines which events it has caused. */
  ghost predicate ShardInv(s: State, i: nat)
    requires i < |s.pcs|
  {
    var pc := s.pcs[i];
    && (Inserted(i) in s.history <==> pc == Done)
    && (pc == SetCleared ==> Wiped(i) in s.history)
    && (Wiped(i) in s.history ==> pc in {SetCleared, InsertOne, Done, Failed})
    && (pc == CreateCollection ==> FoundMissing(i) in s.history)
    && (FoundMissing(i) in s.history ==> pc in {CreateCollection, InsertOne, Done, Failed})
    && (Created(i) in s.history ==> FoundMissing(i) in s.history && pc in {InsertOne, Done, Failed})
    && (pc in {InsertOne, Done} ==> Created(i) in s.history || !NoWipe(s.history))
    && (pc in {InsertOne, Done} && FoundMissing(i) in s.history ==> Created(i) in s.history)
    && (pc in {TestCleared, DeleteMany, SetCleared} ==> s.present)
    && (Wiped(i) in s.history ==> FoundMissing(i) !in s.history)
  }

  ghost predicate HistoryInv(s: State) {
    && (forall i, j :: 0 <= i < j < |s.history| ==> s.history[i] != s.history[j])
    && (forall i :: 0 <= i < |s.history| ==> s.history[i].shard < |s.pcs|)
    && (forall i, j | 0 <= i < |s.history| && 0 <= j < |s.history| ::
          s.history[i].Wiped? && s.history[j] == Inserted(s.history[i].shard) ==> i < j)
  }

  ghost predicate SharedInv(prior: Option<seq<nat>>, s: State) {
    && (s.present <==> prior.Some? || exists i :: Created(i) in s.history)
    && (forall i, j :: Created(i) in s.history && Created(j) in s.history ==> i == j)
    && (prior.Some? ==> forall i :: FoundMissing(i) !in s.history && Created(i) !in s.history)
    && (s.cleared ==> !NoWipe(s.history))
  }

  ghost predicate Inv(n: nat, prior: Option<seq<nat>>, s: State) {
    && |s.pcs| == n
    && LogFollowsLastWipe(prior, s)
    && (forall i :: 0 <= i < n ==> ShardInv(s, i))
    && HistoryInv(s)
    && SharedInv(prior, s)
  }

  lemma {:induction false} InitialInv(n: nat, prior: Option<seq<nat>>)
    ensures Inv(n, prior, Initial(n, prior))
  {
    assert PriorLog(prior) + [] == PriorLog(prior);
  }

  lemma {:induction false} InsertsSnoc(es: seq<Event>, e: Event)
    ensures Inserts(es + [e]) == Inserts(es) + if e.Inserted? then [Shard(e.shard)] else []
  {
    assert (es + [e])[..|es|] == es;
  }

  /** What one event does to the collection. */
  function LogAfter(log: seq<Record>, e: Event): seq<Record> {
    match e
    case Inserted(i) => log + [Shard(i)]
    case Wiped(_) => []
    case _ => log
  }

  lemma {:induction false} NoWipeSnoc(es: seq<Event>, e: Event)
    ensures NoWipe(es + [e]) <==> NoWipe(es) && !e.Wiped?
  {
    if e.Wiped? {
      assert Wiped(e.shard) in es + [e];
    }
    if !NoWipe(es) {
      var i :| Wiped(i) in es;
      assert Wiped(i) in es + [e];
    }
  }

  lemma {:induction false} CutKept(s: State, s': State, e: Event, cut: nat)
    requires LastWipeAt(s, cut) && !e.Wiped?
    requires s'.history == s.history + [e] && s'.log == LogAfter(s.log, e)
    ensures LastWipeAt(s', cut)
  {
    var later := s.history[cut + 1..];
    assert s'.history[cut + 1..] == later + [e];
    InsertsSnoc(later, e);
    NoWipeSnoc(later, e);
  }

  lemma {:induction false} LogKept(prior: Option<seq<nat>>, s: State, s': State, e: Event)
    requires LogFollowsLastWipe(prior, s)
    requires s'.history == s.history + [e] && s'.log == LogAfter(s.log, e)
    ensures LogFollowsLastWipe(prior, s')
  {
    NoWipeSnoc(s.history, e);
    if e.Wiped? {
      assert s'.history[|s.history| + 1..] == [];
      assert LastWipeAt(s', |s.history|);
    } else if NoWipe(s.history) {
      InsertsSnoc(s.history, e);
      assert PriorLog(prior) + Inserts(s'.history) == LogAfter(PriorLog(prior) + Inserts(s.history), e);
    } else {
      var cut: nat :| LastWipeAt(s, cut);
      CutKept(s, s', e, cut);
    }
  }

  /** The shape of every step: only the shard that moves changes its place, and at most one
      event happens, caused by that shard. */
  ghost predicate Frame(s: State, t: Turn, s': State) {
    && |s'.pcs| == |s.pcs|
    && (forall i :: 0 <= i < |s.pcs| && i != t.shard ==> s'.pcs[i] == s.pcs[i])
    && (s.present ==> s'.present)
    && ( || (s'.history == s.history && s'.log == s.log && s'.present == s.present)
         || exists e: Event :: e.shard == t.shard < |s.pcs| && Happened(s, s', e))
  }

  ghost predicate Happened(s: State, s': State, e: Event) {
    && s'.history == s.history + [e]
    && s'.log == LogAfter(s.log, e)
    && s'.present == (s.present || e.Created?)
  }

  lemma {:induction false} StepFrame(s: State, t: Turn)
    ensures Frame(s, t, Step(s, t))
  {
    var s' := Step(s, t);
    if t.shard < |s.pcs| {
      match s.pcs[t.shard]
      case HasCollection =>
        if !t.fault && !s.present {
          assert Happened(s, s', FoundMissing(t.shard));
        }
      case CreateCollection =>
        if !t.fault && !s.present {
          assert Happened(s, s', Created(t.shard));
        }
      case TestCleared =>
      case DeleteMany =>
        if !t.fault {
          assert Happened(s, s', Wiped(t.shard));
        }
      case SetCleared =>
      case InsertOne =>
        if !t.fault {
          assert Happened(s, s', Inserted(t.shard));
        }
      case Done =>
      case Failed =>
    }
  }

  lemma {:induction false} FrameKeepsLog(prior: Option<seq<nat>>, s: State, t: Turn, s': State)
    requires Frame(s, t, s') && LogFollowsLastWipe(prior, s)
    ensures LogFollowsLastWipe(prior, s')
  {
    if s'.history == s.history {
      if !NoWipe(s.history) {
        var cut: nat :| LastWipeAt(s, cut);
        assert LastWipeAt(s', cut);
      }
    } else {
      var e: Event :| e.shard == t.shard && Happened(s, s', e);
      LogKept(prior, s, s', e);
    }
  }

  lemma {:induction false} FrameKeepsOthers(s: State, t: Turn, s': State, i: nat)
    requires Frame(s, t, s') && i < |s.pcs| && i != t.shard && ShardInv(s, i)
    ensures ShardInv(s', i)
  {
    if s'.history != s.history {
      var e: Event :| e.shard == t.shard && Happened(s, s', e);
      NoWipeSnoc(s.history, e);
    }
  }

  lemma {:induction false} StepKeepsMover(s: State, t: Turn)
    requires t.shard < |s.pcs| && ShardInv(s, t.shard)
    requires s.cleared ==> !NoWipe(s.history)
    ensures ShardInv(Step(s, t), t.shard)
  {
    if s.pcs[t.shard] == DeleteMany && !t.fault {
      NoWipeSnoc(s.history, Wiped(t.shard));
    } else if s.pcs[t.shard] == InsertOne && !t.fault {
      NoWipeSnoc(s.history, Inserted(t.shard));
    }
  }

  /** The event a step adds is new, and a shard inserts only after its own wipe. */
  lemma {:induction false} StepEventFresh(s: State, t: Turn, e: Event)
    requires t.shard < |s.pcs| && ShardInv(s, t.shard)
    requires e.shard == t.shard && Happened(s, Step(s, t), e)
    ensures e !in s.history
    ensures e.Wiped? ==> Inserted(t.shard) !in s.history
    ensures e.FoundMissing? || e.Created? ==> !s.present
    ensures e.Created? ==> s.pcs[t.shard] == CreateCollection
  {
    assert Step(s, t).history[|s.history|] == e;
  }

  lemma {:induction false} FrameKeepsHistory(s: State, t: Turn, e: Event, s': State)
    requires HistoryInv(s) && t.shard < |s.pcs| == |s'.pcs|
    requires e.shard == t.shard && Happened(s, s', e)
    requires e !in s.history && (e.Wiped? ==> Inserted(t.shard) !in s.history)
    ensures HistoryInv(s')
  {
  }

  lemma {:induction false} CreatedSnoc(prior: Option<seq<nat>>, s: State, s': State, e: Event)
    requires s.present <==> prior.Some? || exists i :: Created(i) in s.history
    requires Happened(s, s', e)
    ensures s'.present <==> prior.Some? || exists i :: Created(i) in s'.history
  {
    if e.Created? {
      assert Created(e.shard) in s'.history;
    }
    if exists i :: Created(i) in s.history {
      var i :| Created(i) in s.history;
      assert Created(i) in s'.history;
    }
  }

  lemma {:induction false} EventKeepsShared(prior: Option<seq<nat>>, s: State, s': State, e: Event)
    requires SharedInv(prior, s) && Happened(s, s', e) && s'.cleared == s.cleared
    requires e.FoundMissing? || e.Created? ==> !s.present
    ensures SharedInv(prior, s')
  {
    CreatedSnoc(prior, s, s', e);
    NoWipeSnoc(s.history, e);
  }

  lemma {:induction false} StepKeepsShared(prior: Option<seq<nat>>, s: State, t: Turn)
    requires SharedInv(prior, s)
    requires t.shard < |s.pcs| ==> ShardInv(s, t.shard)
    ensures SharedInv(prior, Step(s, t))
  {
    StepFrame(s, t);
    var s' := Step(s, t);
    if s'.history != s.history {
      var e: Event :| e.shard == t.shard && Happened(s, s', e);
      StepEventFresh(s, t, e);
      EventKeepsShared(prior, s, s', e);
    }
  }

  lemma {:induction false} StepKeepsHistory(s: State, t: Turn)
    requires HistoryInv(s)
    requires t.shard < |s.pcs| ==> ShardInv(s, t.shard)
    ensures HistoryInv(Step(s, t))
  {
    StepFrame(s, t);
    var s' := Step(s, t);
    if s'.history != s.history {
      var e: Event :| e.shard == t.shard && Happened(s, s', e);
      StepEventFresh(s, t, e);
      FrameKeepsHistory(s, t, e, s');
    }
  }

  lemma {:induction false} StepKeepsShards(s: State, t: Turn)
    requires forall i :: 0 <= i < |s.pcs| ==> ShardInv(s, i)
    requires s.cleared ==> !NoWipe(s.history)
    ensures |Step(s, t).pcs| == |s.pcs|
    ensures forall i :: 0 <= i < |s.pcs| ==> ShardInv(Step(s, t), i)
  {
    StepFrame(s, t);
    var s' := Step(s, t);
    forall i | 0 <= i < |s.pcs| ensures ShardInv(s', i) {
      if i == t.shard {
        StepKeepsMover(s, t);
      } else {
        FrameKeepsOthers(s, t, s', i);
      }
    }
  }

  lemma {:induction false} StepKeepsInv(n: nat, prior: Option<seq<nat>>, s: State, t: Turn)
    requires Inv(n, prior, s)
    ensures Inv(n, prior, Step(s, t))
  {
    StepFrame(s, t);
    FrameKeepsLog(prior, s, t, Step(s, t));
    StepKeepsShards(s, t);
    StepKeepsHistory(s, t);
    StepKeepsShared(prior, s, t);
  }

  /** Every reachable state, complete or not, with any number of failing shards. */
  lemma {:induction false} Reachable(n: nat, prior: Option<seq<nat>>, turns: seq<Turn>)
    ensures Inv(n, prior, Run(Initial(n, prior), turns))
  {
    if |turns| == 0 {
      InitialInv(n, prior);
    } else {
      Reachable(n, prior, turns[..|turns| - 1]);
      StepKeepsInv(n, prior, Run(Initial(n, prior), turns[..|turns| - 1]), turns[|turns| - 1]);
    }
  }
}
