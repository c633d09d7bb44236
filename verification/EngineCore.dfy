/** The synchronous action-graph engine (hermes_control_core/engine.py). */
module EngineCore {
  import opened Collections
  import opened ActionGraph
  import opened GraphValidation
  import opened Preview
  import opened RunSpec
  import opened RunProgress

  datatype RunOutcome =
    | Finished(result: EngineResult)
    | InvalidGraph(verdict: Verdict)
    | UnexpectedRunning

  class Engine {
    const graph: Graph
    const handler: Handler
    var states: map<Id, RuntimeState>
    var events: seq<Event>

    constructor (graph: Graph, handler: Handler)
      requires graph.IsDict()
      ensures this.graph == graph && this.handler == handler && events == []
    {
      this.graph, this.handler := graph, handler;
      states, events := map[], [];
    }

    method SetState(id: Id, st: RuntimeState)
      modifies this`states
      ensures states == old(states)[id := st]
    {
      states := states[id := st];
    }

    method Emit(id: Id, status: ActionStatus)
      modifies this`events
      ensures events == old(events) + [Event(id, status)]
    {
      events := events + [Event(id, status)];
    }

    function CanRetry(d: ActionDescriptor, attempts: nat): (r: bool)
      requires 1 <= attempts <= Budget(d)
      ensures r <==> attempts < Budget(d)
    {
      attempts < MaxAttempts(d) && !d.retryPolicy.kind.NoRetry?
    }

    /** Executes one action that has not been tried yet. */
    method ExecuteOne(id: Id)
      requires id in graph.actions && id in states && states[id] == INITIAL_STATE
      modifies this
      ensures states == old(states)[id := StateAfter(graph, handler, id)]
      ensures events == old(events) + EventsOf(graph, handler, id)
    {
      var d := graph.actions[id];
      StateAfterMeaning(graph, handler, id);
      SetState(id, states[id].(status := Running));
      Emit(id, Running);
      var st := TryUntilDone(id, states[id]);
      if st.status == Succeeded {
        SetState(id, st);
        Emit(id, Succeeded);
        return;
      }
      SetState(id, st.(status := Failed));
      Emit(id, Failed);
      if d.allowFailure {
        SetState(id, st.(status := Skipped));
        Emit(id, Skipped);
      }
    }

    /** The attempts of an action that has just become RUNNING. */
    method TryUntilDone(id: Id, running: RuntimeState) returns (st: RuntimeState)
      requires id in graph.actions && running == INITIAL_STATE.(status := Running)
      ensures var n := AttemptsFrom(handler, id, 1, Budget(graph.actions[id]));
        st == match handler(id, n)
              case Success(result) => RuntimeState(Succeeded, n, None, Some(result))
              case Failure(message, _) => RuntimeState(Running, n, Some(message), LastDetails(handler, id, n))
    {
      var d := graph.actions[id];
      st := running;
      var attempts: nat := 0;
      while attempts < MaxAttempts(d)
        invariant attempts < Budget(d)
        invariant AttemptsFrom(handler, id, 1, Budget(d)) == AttemptsFrom(handler, id, attempts + 1, Budget(d))
        invariant st.status == Running && st.result == LastDetails(handler, id, attempts)
        decreases MaxAttempts(d) - attempts
      {
        attempts := attempts + 1;
        st := st.(attempts := attempts);
        match handler(id, attempts)
        case Success(result) =>
          st := st.(result := Some(result), status := Succeeded, lastError := None);
          return;
        case Failure(message, details) =>
          st := st.(lastError := Some(message));
          if details.Some? {
            st := st.(result := details);
          }
          if !CanRetry(d, attempts) {
            break;
          }
      }
    }

    /** The actions that may start now, in graph order; unresolved actions that can no longer
        start because of a FAILED or CANCELLED dependency become BLOCKED, nothing else changes. */
    method ReadyActions() returns (ready: seq<Id>)
      requires graph.IsDict()
      modifies this`states
      ensures ready == Filter(graph.order, ReadyTest(graph, old(states)))
      ensures states.Keys == old(states.Keys)
      ensures forall id :: id in states ==>
        states[id] == if IsBlocked(graph, old(states), id) then old(states)[id].(status := Blocked) else old(states)[id]
    {
      ghost var before := states;
      ready := [];
      for i := 0 to |graph.order|
        invariant ready == Filter(graph.order[..i], ReadyTest(graph, before))
        invariant MarkedBlocked(before, graph.order[..i])
      {
        FilterNext(graph.order, i, ReadyTest(graph, before));
        NextExamined(graph.order, i);
        var isReady := ReadyOrBlock(before, graph.order[..i], graph.order[i]);
        if isReady {
          ready := ready + [graph.order[i]];
        }
      }
      AllExamined(before);
    }

    lemma AllExamined(before: map<Id, RuntimeState>)
      requires graph.IsDict() && MarkedBlocked(before, graph.order[..|graph.order|])
      ensures graph.order[..|graph.order|] == graph.order
      ensures states.Keys == before.Keys
      ensures forall id :: id in states ==>
        states[id] == if IsBlocked(graph, before, id) then before[id].(status := Blocked) else before[id]
    {
      assert graph.order[..|graph.order|] == graph.order;
    }

    /** Compared with before, exactly the blocked actions among those examined became BLOCKED. */
    ghost predicate MarkedBlocked(before: map<Id, RuntimeState>, examined: seq<Id>)
      reads this
    {
      && states.Keys == before.Keys
      && forall id :: id in states ==>
           states[id] == if id in examined && IsBlocked(graph, before, id)
                         then before[id].(status := Blocked) else before[id]
    }

    /** Examines one more action. */
    method ReadyOrBlock(ghost before: map<Id, RuntimeState>, ghost examined: seq<Id>, id: Id) returns (ready: bool)
      requires id in graph.actions && id !in examined && MarkedBlocked(before, examined)
      modifies this`states
      ensures ready <==> IsReady(graph, before, id)
      ensures MarkedBlocked(before, examined + [id])
    {
      ready := false;
      if id in states && Unresolved(states[id].status) {
        var present, succeeded, failed := DepStatuses(before, id);
        ready := present && succeeded;
        if present && !succeeded && failed {
          states := states[id := states[id].(status := Blocked)];
        }
      }
    }

    /** What the dependency statuses of id say. Marking actions BLOCKED along the way, which is
        the only change since before, does not affect the answer. */
    method DepStatuses(ghost before: map<Id, RuntimeState>, id: Id)
      returns (present: bool, succeeded: bool, failed: bool)
      requires id in graph.actions && states.Keys == before.Keys
      requires forall x :: x in states ==>
        states[x] == before[x] || (Unresolved(before[x].status) && states[x].status == Blocked)
      ensures present <==> DepsPresent(graph, before, id)
      ensures present ==> (succeeded <==> forall dep :: dep in graph.actions[id].deps ==> before[dep].status == Succeeded)
      ensures present ==> (failed <==> exists dep :: dep in graph.actions[id].deps && before[dep].status in {Failed, Cancelled})
    {
      present, succeeded, failed := true, true, false;
      var deps := graph.actions[id].deps;
      for k := 0 to |deps|
        invariant present <==> forall m :: 0 <= m < k ==> deps[m] in states
        invariant present ==> (succeeded <==> forall m :: 0 <= m < k ==> before[deps[m]].status == Succeeded)
        invariant present ==> (failed <==> exists m :: 0 <= m < k && before[deps[m]].status in {Failed, Cancelled})
      {
        if deps[k] !in states {
          present := false;
        } else {
          var st := states[deps[k]].status;
          succeeded := succeeded && st == Succeeded;
          failed := failed || st in {Failed, Cancelled};
        }
      }
    }

    method ShouldFailFast() returns (stop: bool)
      requires graph.IsDict() && states.Keys == graph.actions.Keys
      ensures stop <==> exists id :: id in states && states[id].status == Failed && !graph.actions[id].allowFailure
    {
      for i := 0 to |graph.order|
        invariant forall j :: 0 <= j < i ==>
          states[graph.order[j]].status != Failed || graph.actions[graph.order[j]].allowFailure
      {
        var id := graph.order[i];
        if states[id].status == Failed && !graph.actions[id].allowFailure {
          return true;
        }
      }
      stop := false;
    }

    /** Whether some action has one of the given statuses. */
    method AnyStatus(wanted: set<ActionStatus>) returns (found: bool)
      requires graph.IsDict() && states.Keys == graph.actions.Keys
      ensures found <==> exists id :: id in states && states[id].status in wanted
    {
      for i := 0 to |graph.order|
        invariant forall j :: 0 <= j < i ==> states[graph.order[j]].status !in wanted
      {
        if states[graph.order[i]].status in wanted {
          return true;
        }
      }
      found := false;
    }

    /** The states and events are those of executing exactly the actions in started, in order. */
    ghost predicate HasRun(started: seq<Id>, base: seq<Event>)
      reads this
    {
      states == Snapshot(graph, handler, started) && events == base + Log(graph, handler, started)
    }

    /** Executes id after the actions in before, which left no fatal failure. */
    method RunNext(id: Id, ghost before: seq<Id>, ghost base: seq<Event>) returns (stop: bool)
      requires graph.IsDict() && id in graph.actions && id !in before
      requires NoneFatal(graph, handler, before) && HasRun(before, base)
      modifies this
      ensures stop <==> Fatal(graph, handler, id)
      ensures HasRun(before + [id], base)
    {
      SnapshotStep(graph, handler, before, id);
      LogStep(graph, handler, before, id);
      ConcatAssoc(base, Log(graph, handler, before), EventsOf(graph, handler, id));
      if states[id].status != Blocked {
        ExecuteOne(id);
      }
      FailFastMeansFatal(graph, handler, before, id);
      stop := ShouldFailFast();
    }

    /** Runs the actions of one wave in order, stopping after a failure that is not tolerated. */
    method RunWave(wave: seq<Id>, ghost started: seq<Id>, ghost base: seq<Event>)
      returns (stop: bool, ghost ran: seq<Id>)
      requires graph.IsDict() && NoDup(started + wave)
      requires forall id :: id in wave ==> id in graph.actions
      requires NoneFatal(graph, handler, started) && HasRun(started, base)
      modifies this
      ensures ran <= wave && HasRun(started + ran, base)
      ensures stop ==> StoppedBy(graph, handler, ran)
      ensures !stop ==> ran == wave && NoneFatal(graph, handler, wave)
    {
      hide Snapshot;
      hide Log;
      hide Fatal;
      stop, ran := false, wave;
      assert started + wave[..0] == started && wave[..|wave|] == wave;
      for i := 0 to |wave|
        invariant ran == wave && NoneFatal(graph, handler, wave[..i])
        invariant HasRun(started + wave[..i], base)
      {
        NextIsNew(graph, handler, started, wave, i);
        stop := RunNext(wave[i], started + wave[..i], base);
        if stop {
          return true, wave[..i + 1];
        }
      }
    }

    /** Determines the next wave; nothing is marked BLOCKED. */
    method NextWave(ghost started: seq<Id>, ghost done: seq<Id>, ghost base: seq<Event>) returns (wave: seq<Id>)
      requires Progress(graph, handler, started, done) && HasRun(started, base)
      modifies this`states
      ensures HasRun(started, base)
      ensures wave == RunnableOnly(graph, handler, Wave(graph, done))
    {
      ReadyIsNextWave(graph, handler, started, done);
      ghost var before := states;
      wave := ReadyActions();
      forall id | id in states ensures states[id] == before[id] {
        NeverBlocked(graph, handler, started, id);
      }
      assert states == before;
    }

    /** One turn of the run loop. Without a ready action the plan has been carried out; after a
        stop it has been carried out up to its fatal failure; otherwise the run has progressed. */
    method Turn(ghost started: seq<Id>, ghost done: seq<Id>, ghost base: seq<Event>)
      returns (more: bool, stop: bool, ghost started': seq<Id>, ghost done': seq<Id>)
      requires Progress(graph, handler, started, done) && HasRun(started, base)
      modifies this
      ensures HasRun(started', base)
      ensures !more ==> started' == Plan(graph, handler)
      ensures !stop ==> NoneFatal(graph, handler, started')
      ensures stop ==> !more && StoppedBy(graph, handler, started')
      ensures more || stop ==> |started| < |started'|
      ensures more ==> Progress(graph, handler, started', done')
      ensures |started| <= |started'| <= |graph.order|
    {
      started', done', stop := started, done, false;
      ProgressBound(graph, handler, started, done);
      var wave := NextWave(started, done, base);
      more := wave != [];
      if !more {
        StuckFrontier(graph, handler, done);
        PlanWhenStuck(graph, handler, started, done);
        return;
      }
      WaveIsNew(graph, handler, started, done);
      ghost var ran;
      stop, ran := RunWave(wave, started, base);
      started' := started + ran;
      if stop {
        more := false;
        PlanWhenStopped(graph, handler, started, done, ran);
      } else {
        ProgressStep(graph, handler, started, done);
        done' := done + Wave(graph, done);
      }
    }

    /** The flags of a run that was not stopped. */
    method Summary() returns (r: EngineResult)
      requires graph.IsDict() && states.Keys == graph.actions.Keys
      ensures r.states == states && !r.cancelled
      ensures r.failed <==> exists id :: id in states && states[id].status == Failed
      ensures r.completed <==> forall id :: id in states ==> states[id].status in {Succeeded, Skipped, Cancelled}
    {
      var failed := AnyStatus({Failed});
      var blocked := AnyStatus({Blocked});
      var open := AnyStatus({Pending, Ready, Running, Failed, Blocked});
      r := EngineResult(states, !failed && !blocked && !open, failed, false);
    }

    /** The loop of a run of a valid graph: it carries out the plan and says whether it was
        stopped by a fatal failure. */
    method RunLoop() returns (stop: bool, unexpected: bool, ghost plan: seq<Id>, ghost rounds: nat)
      requires graph.IsDict() && graph.DepsKnown() && HasRun([], events)
      modifies this
      ensures !unexpected && plan == Plan(graph, handler) && HasRun(plan, old(events))
      ensures rounds <= |plan|
      ensures stop ==> StoppedBy(graph, handler, plan)
      ensures !stop ==> NoneFatal(graph, handler, plan)
    {
      rounds, plan := 0, [];
      stop, unexpected := false, false;
      ghost var done := [];
      ProgressStart(graph, handler);
      var more := true;
      while more
        invariant !unexpected && HasRun(plan, old(events)) && rounds <= |plan|
        invariant more ==> Progress(graph, handler, plan, done) && !stop
        invariant !more ==> plan == Plan(graph, handler)
        invariant stop ==> StoppedBy(graph, handler, plan)
        invariant !stop ==> NoneFatal(graph, handler, plan)
        decreases more, |graph.order| - |plan|
      {
        more, unexpected := Unfinished(plan, done, old(events));
        if more {
          ProgressBound(graph, handler, plan, done);
          more, stop, plan, done := Turn(plan, done, old(events));
          if more || stop {
            rounds := rounds + 1;
          }
        }
      }
    }

    /** Whether the loop goes on: some action is unresolved and none is RUNNING. */
    method Unfinished(ghost started: seq<Id>, ghost done: seq<Id>, ghost base: seq<Event>)
      returns (more: bool, unexpected: bool)
      requires Progress(graph, handler, started, done) && HasRun(started, base)
      ensures !unexpected
      ensures !more ==> started == Plan(graph, handler)
    {
      SnapshotStatuses(graph, handler, started);
      var unresolved := AnyStatus({Pending, Ready});
      unexpected := AnyStatus({Running});
      more := unresolved && !unexpected;
      if !more {
        NothingLeft(graph, handler, started, done);
      }
    }

    /** A run rejects exactly the invalid graphs. Otherwise it executes the plan: the states,
        the events and the flags are those of the plan, in at most as many executing rounds as
        the plan has actions, and the RUNNING error cannot happen. */
    method Run() returns (r: RunOutcome, ghost rounds: nat)
      requires graph.IsDict()
      modifies this
      ensures r.Finished? <==> graph.Valid()
      ensures !r.UnexpectedRunning?
      ensures r.InvalidGraph? ==> states == old(states) && events == old(events)
      ensures r.Finished? ==> HasRun(Plan(graph, handler), old(events)) && rounds <= |Plan(graph, handler)|
      ensures r.Finished? ==> r.result == PlanResult(graph, handler)
      ensures r.Finished? ==> CarriedOut(graph, handler, Plan(graph, handler), r.result.states)
    {
      rounds := 0;
      hide CarriedOut;
      ResultIsCarriedOut(graph, handler);
      var verdict := ValidateGraph(graph);
      if !verdict.Accepted? {
        return InvalidGraph(verdict), rounds;
      }
      states := map id | id in graph.actions :: INITIAL_STATE;
      ghost var plan;
      var stop, unexpected;
      stop, unexpected, plan, rounds := RunLoop();
      if unexpected {
        return UnexpectedRunning, rounds;
      }
      if stop {
        StoppedResult(graph, handler, plan);
        return Finished(EngineResult(states, false, true, false)), rounds;
      }
      var result := Summary();
      QuietResult(graph, handler, plan);
      r := Finished(result);
    }
  }

  lemma NextExamined(ids: seq<Id>, i: nat)
    requires NoDup(ids) && i < |ids|
    ensures ids[i] in ids && ids[i] !in ids[..i] && ids[..i + 1] == ids[..i] + [ids[i]]
  {
  }
}
