/** Why waves of ready actions carry out the plan: how far a run has come is a prefix of the
    preview waves together with its runnable part. */
module RunProgress {
  import opened Collections
  import opened ActionGraph
  import opened Preview
  import opened RunSpec

  predicate Unresolved(status: ActionStatus) {
    status == Pending || status == Ready
  }

  ghost predicate DepsPresent(g: Graph, states: map<Id, RuntimeState>, id: Id) {
    id in g.actions && forall dep :: dep in g.actions[id].deps ==> dep in states
  }

  /** id may start: unresolved, with every dependency SUCCEEDED. */
  ghost predicate IsReady(g: Graph, states: map<Id, RuntimeState>, id: Id) {
    && DepsPresent(g, states, id)
    && id in states && Unresolved(states[id].status)
    && forall dep :: dep in g.actions[id].deps ==> states[dep].status == Succeeded
  }

  ghost function ReadyTest(g: Graph, states: map<Id, RuntimeState>): Id -> bool {
    id => IsReady(g, states, id)
  }

  /** id becomes BLOCKED: unresolved, not ready, with a FAILED or CANCELLED dependency. */
  ghost predicate IsBlocked(g: Graph, states: map<Id, RuntimeState>, id: Id) {
    && DepsPresent(g, states, id) && !IsReady(g, states, id)
    && id in states && Unresolved(states[id].status)
    && exists dep :: dep in g.actions[id].deps && states[dep].status in {Failed, Cancelled}
  }

  /** After some complete waves without a fatal failure: done has been listed by the preview
      and its runnable part has been executed. */
  ghost predicate Progress(g: Graph, h: Handler, started: seq<Id>, done: seq<Id>) {
    && g.IsDict() && g.DepsKnown() && Listed(g, done)
    && WavesFrom(g, done) == PreviewOrder(g)
    && started == RunnableOnly(g, h, done)
    && NoneFatal(g, h, started)
  }

  ghost predicate NoneFatal(g: Graph, h: Handler, s: seq<Id>) {
    forall id :: id in s ==> id in g.actions && !Fatal(g, h, id)
  }

  /** The last action of s is fatal, the ones before are not. */
  ghost predicate StoppedBy(g: Graph, h: Handler, s: seq<Id>) {
    s != [] && Fatal(g, h, s[|s| - 1]) && NoneFatal(g, h, s[..|s| - 1])
  }

  lemma ProgressStart(g: Graph, h: Handler)
    requires g.IsDict() && g.DepsKnown()
    ensures Progress(g, h, [], [])
  {
  }

  lemma ProgressBound(g: Graph, h: Handler, started: seq<Id>, done: seq<Id>)
    requires Progress(g, h, started, done)
    ensures |started| <= |g.order|
  {
    WaveKeepsListed(g, done);
  }

  /** A stopped run failed and did not complete. */
  lemma StoppedResult(g: Graph, h: Handler, plan: seq<Id>)
    requires g.IsDict() && plan == Plan(g, h) && StoppedBy(g, h, plan)
    ensures PlanResult(g, h) == EngineResult(Snapshot(g, h, plan), false, true, false)
  {
    var last := plan[|plan| - 1];
    assert last in plan;
    StateAfterMeaning(g, h, last);
    assert Snapshot(g, h, plan)[last].status == Failed;
  }

  /** Without a fatal failure no action is FAILED or CANCELLED. */
  lemma QuietResult(g: Graph, h: Handler, plan: seq<Id>)
    requires g.IsDict() && plan == Plan(g, h)
    requires NoneFatal(g, h, plan)
    ensures var states := Snapshot(g, h, plan);
      && (forall id :: id in states ==> states[id].status != Failed && states[id].status != Cancelled)
      && !PlanResult(g, h).failed
  {
    SnapshotStatuses(g, h, plan);
  }

  lemma SnapshotStatuses(g: Graph, h: Handler, started: seq<Id>)
    requires NoneFatal(g, h, started)
    ensures forall id :: id in g.actions ==>
      Snapshot(g, h, started)[id].status ==
        if id !in started then Pending else if Succeeds(g, h, id) then Succeeded else Skipped
  {
    forall id | id in started ensures
      StateAfter(g, h, id).status == if Succeeds(g, h, id) then Succeeded else Skipped
    {
      StateAfterMeaning(g, h, id);
    }
  }

  lemma ReadyIsNext(g: Graph, h: Handler, started: seq<Id>, done: seq<Id>, id: Id)
    requires Progress(g, h, started, done)
    requires IsReady(g, Snapshot(g, h, started), id)
    ensures InNextWave(g, done, id) && Runnable(g, h, id)
  {
    SnapshotStatuses(g, h, started);
    assert id !in started;
    forall dep | dep in g.actions[id].deps ensures dep in done && Succeeds(g, h, dep) && Runnable(g, h, dep) {
      assert dep in started;
    }
    RunnableStep(g, h, id);
    assert id !in done;
  }

  lemma NextIsReady(g: Graph, h: Handler, started: seq<Id>, done: seq<Id>, id: Id)
    requires Progress(g, h, started, done)
    requires InNextWave(g, done, id) && Runnable(g, h, id)
    ensures IsReady(g, Snapshot(g, h, started), id)
  {
    SnapshotStatuses(g, h, started);
    RunnableStep(g, h, id);
    forall dep | dep in g.actions[id].deps ensures dep in started && Succeeds(g, h, dep) {
      assert g.Edge(id, dep);
    }
  }

  lemma NeverBlocked(g: Graph, h: Handler, started: seq<Id>, id: Id)
    requires NoneFatal(g, h, started)
    ensures !IsBlocked(g, Snapshot(g, h, started), id)
  {
    SnapshotStatuses(g, h, started);
  }

  lemma ReadyIffNext(g: Graph, h: Handler, started: seq<Id>, done: seq<Id>, id: Id)
    requires Progress(g, h, started, done)
    ensures IsReady(g, Snapshot(g, h, started), id) <==> InNextWave(g, done, id) && Runnable(g, h, id)
  {
    if IsReady(g, Snapshot(g, h, started), id) {
      ReadyIsNext(g, h, started, done, id);
    } else if InNextWave(g, done, id) && Runnable(g, h, id) {
      NextIsReady(g, h, started, done, id);
    }
  }

  /** The ready actions of the engine are the runnable ones of the next preview wave. */
  lemma ReadyIsNextWave(g: Graph, h: Handler, started: seq<Id>, done: seq<Id>)
    requires Progress(g, h, started, done)
    ensures Filter(g.order, ReadyTest(g, Snapshot(g, h, started))) == RunnableOnly(g, h, Wave(g, done))
  {
    var ready := ReadyTest(g, Snapshot(g, h, started));
    var next, runnable := NextTest(g, done), RunnableTest(g, h);
    forall id | id in g.order ensures ready(id) == (next(id) && runnable(id)) {
      ReadyIffNext(g, h, started, done, id);
    }
    FilterTwice(g.order, ready, next, runnable);
  }

  lemma PlanWhenStuck(g: Graph, h: Handler, started: seq<Id>, done: seq<Id>)
    requires Progress(g, h, started, done)
    requires RunnableOnly(g, h, WavesFrom(g, done)) == started
    ensures Plan(g, h) == started
  {
    CutAfterNone(started, FatalTest(g, h));
  }

  lemma NothingLeft(g: Graph, h: Handler, started: seq<Id>, done: seq<Id>)
    requires Progress(g, h, started, done)
    requires forall id :: id in g.actions ==> Snapshot(g, h, started)[id].status != Pending
    ensures Plan(g, h) == started
  {
    forall id | id in g.order ensures !InNextWave(g, done, id) {
      assert id in g.actions && FinalState(g, h, started, id).status != Pending;
      assert id in started;
    }
    FilterNone(g.order, NextTest(g, done));
    PlanWhenStuck(g, h, started, done);
  }

  lemma WaveIsNew(g: Graph, h: Handler, started: seq<Id>, done: seq<Id>)
    requires Progress(g, h, started, done)
    ensures var wave := RunnableOnly(g, h, Wave(g, done));
      NoDup(started + wave) && started + wave == RunnableOnly(g, h, done + Wave(g, done))
    ensures |started + RunnableOnly(g, h, Wave(g, done))| <= |g.order|
  {
    WaveKeepsListed(g, done);
    FilterConcat(done, Wave(g, done), RunnableTest(g, h));
    FilterNoDup(done + Wave(g, done), RunnableTest(g, h));
  }

  lemma ProgressStep(g: Graph, h: Handler, started: seq<Id>, done: seq<Id>)
    requires Progress(g, h, started, done)
    requires Wave(g, done) != []
    requires NoneFatal(g, h, RunnableOnly(g, h, Wave(g, done)))
    ensures Progress(g, h, started + RunnableOnly(g, h, Wave(g, done)), done + Wave(g, done))
  {
    WaveKeepsListed(g, done);
    WaveIsNew(g, h, started, done);
  }

  /** A run stopped within a wave has executed the plan up to its fatal failure. */
  lemma PlanWhenStopped(g: Graph, h: Handler, started: seq<Id>, done: seq<Id>, ran: seq<Id>)
    requires Progress(g, h, started, done)
    requires ran <= RunnableOnly(g, h, Wave(g, done)) && StoppedBy(g, h, ran)
    ensures Plan(g, h) == started + ran && StoppedBy(g, h, started + ran)
  {
    var wave := RunnableOnly(g, h, Wave(g, done));
    var later := RunnableBeyond(g, h, started, done);
    CutAfterPrefix(started, ran, wave, later, FatalTest(g, h));
    StopsAfter(g, h, started, ran);
  }

  lemma StopsAfter(g: Graph, h: Handler, started: seq<Id>, ran: seq<Id>)
    requires NoneFatal(g, h, started) && StoppedBy(g, h, ran)
    ensures StoppedBy(g, h, started + ran)
  {
    var n := |ran| - 1;
    assert (started + ran)[..|started + ran| - 1] == started + ran[..n];
    assert (started + ran)[|started + ran| - 1] == ran[n];
  }

  lemma RunnableBeyond(g: Graph, h: Handler, started: seq<Id>, done: seq<Id>) returns (later: seq<Id>)
    requires Progress(g, h, started, done) && Wave(g, done) != []
    ensures RunnableOnly(g, h, PreviewOrder(g)) == started + RunnableOnly(g, h, Wave(g, done)) + later
  {
    WaveKeepsListed(g, done);
    var listed := done + Wave(g, done);
    var all := WavesFrom(g, listed);
    var rest := all[|listed|..];
    assert all == listed + rest;
    FilterConcat(listed, rest, RunnableTest(g, h));
    FilterConcat(done, Wave(g, done), RunnableTest(g, h));
    later := RunnableOnly(g, h, rest);
  }

  lemma SnapshotStep(g: Graph, h: Handler, before: seq<Id>, id: Id)
    requires id in g.actions
    ensures Snapshot(g, h, before + [id]) == Snapshot(g, h, before)[id := StateAfter(g, h, id)]
  {
    assert forall x :: x in before + [id] <==> x in before || x == id;
  }

  /** With no earlier fatal failure, some FAILED action is not tolerated exactly when the last
      one executed is fatal. */
  lemma FailFastMeansFatal(g: Graph, h: Handler, before: seq<Id>, id: Id)
    requires NoneFatal(g, h, before)
    requires id in g.actions
    ensures var states := Snapshot(g, h, before + [id]);
      (exists x :: x in states && states[x].status == Failed && !g.actions[x].allowFailure) <==> Fatal(g, h, id)
  {
    var states := Snapshot(g, h, before + [id]);
    StateAfterMeaning(g, h, id);
    assert id in before + [id];
    assert states[id] == StateAfter(g, h, id);
    forall x | x in states && x != id ensures states[x].status != Failed {
      if x in before {
        StateAfterMeaning(g, h, x);
      }
    }
  }

  lemma NextIsNew(g: Graph, h: Handler, started: seq<Id>, wave: seq<Id>, i: nat)
    requires i < |wave| && NoDup(started + wave)
    requires NoneFatal(g, h, started) && NoneFatal(g, h, wave[..i])
    ensures wave[i] in wave && wave[i] !in started + wave[..i]
    ensures started + wave[..i + 1] == started + wave[..i] + [wave[i]]
    ensures NoneFatal(g, h, started + wave[..i])
    ensures wave[i] in g.actions ==>
      if Fatal(g, h, wave[i]) then StoppedBy(g, h, wave[..i + 1]) else NoneFatal(g, h, wave[..i + 1])
  {
    var all, k := started + wave, |started| + i;
    assert all[k] == wave[i];
    assert started + wave[..i] == all[..k];
    assert wave[..i + 1] == wave[..i] + [wave[i]];
    assert wave[..i + 1][..i] == wave[..i];
  }

  lemma LogStep(g: Graph, h: Handler, before: seq<Id>, id: Id)
    ensures Log(g, h, before + [id]) == Log(g, h, before) + EventsOf(g, h, id)
  {
    assert (before + [id])[..|before|] == before;
  }
}
