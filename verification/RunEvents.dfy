/** Safety of the event log of any run. */
module RunEvents {
  import opened Collections
  import opened ActionGraph
  import opened RunSpec
  import opened RunProgress
  import opened RunProperties

  /** The events of one action, in order. */
  ghost function Project(log: seq<Event>, id: Id): seq<Event> {
    if log == [] then []
    else
      var front := Project(log[..|log| - 1], id);
      if log[|log| - 1].actionId == id then front + [log[|log| - 1]] else front
  }

  /** The actions started, in order. */
  ghost function Starts(log: seq<Event>): seq<Id> {
    if log == [] then []
    else
      var front := Starts(log[..|log| - 1]);
      if log[|log| - 1].status == Running then front + [log[|log| - 1].actionId] else front
  }

  /** The status a reader of the log assigns to an action. */
  ghost function Replay(log: seq<Event>, id: Id): ActionStatus {
    if log == [] then Pending
    else if log[|log| - 1].actionId == id then log[|log| - 1].status
    else Replay(log[..|log| - 1], id)
  }

  lemma {:induction false} ProjectConcat(a: seq<Event>, b: seq<Event>, id: Id)
    ensures Project(a + b, id) == Project(a, id) + Project(b, id)
  {
    if b == [] {
      assert a + b == a;
    } else {
      var c := b[..|b| - 1];
      assert (a + b)[..|a + b| - 1] == a + c;
      ProjectConcat(a, c, id);
    }
  }

  lemma {:induction false} StartsConcat(a: seq<Event>, b: seq<Event>)
    ensures Starts(a + b) == Starts(a) + Starts(b)
  {
    if b == [] {
      assert a + b == a;
    } else {
      var c := b[..|b| - 1];
      assert (a + b)[..|a + b| - 1] == a + c;
      StartsConcat(a, c);
    }
  }

  lemma {:induction false} ReplayConcat(a: seq<Event>, b: seq<Event>, id: Id)
    ensures Replay(a + b, id) == if Project(b, id) == [] then Replay(a, id) else Replay(b, id)
  {
    if b == [] {
      assert a + b == a;
    } else {
      var c := b[..|b| - 1];
      assert (a + b)[..|a + b| - 1] == a + c;
      ReplayConcat(a, c, id);
    }
  }

  /** Events of a single action. */
  lemma {:induction false} ProjectSame(events: seq<Event>, id: Id, other: Id)
    requires forall e :: e in events ==> e.actionId == id
    ensures Project(events, other) == if other == id then events else []
  {
    if events == [] {
    } else {
      var front, last := events[..|events| - 1], events[|events| - 1];
      ProjectSame(front, id, other);
      assert last in events && events == front + [last];
    }
  }

  /** Events of which only the first is a start. */
  lemma {:induction false} StartsOnce(events: seq<Event>)
    requires events != [] && events[0].status == Running
    requires forall i :: 1 <= i < |events| ==> events[i].status != Running
    ensures Starts(events) == [events[0].actionId]
  {
    if |events| == 1 {
      assert events[..0] == [];
    } else {
      StartsOnce(events[..|events| - 1]);
    }
  }

  lemma EventsOfOne(g: Graph, h: Handler, id: Id, other: Id)
    ensures Project(EventsOf(g, h, id), other) == if other == id then EventsOf(g, h, id) else []
    ensures Starts(EventsOf(g, h, id)) == [id]
  {
    hide Project;
    hide Starts;
    ProjectSame(EventsOf(g, h, id), id, other);
    StartsOnce(EventsOf(g, h, id));
  }

  lemma ReplayOne(g: Graph, h: Handler, id: Id)
    requires id in g.actions
    ensures Replay(EventsOf(g, h, id), id) == StateAfter(g, h, id).status
  {
    StateAfterMeaning(g, h, id);
  }

  /** Each action's events are those of its execution, or none when it was not started. */
  lemma {:induction false} LogOfEachAction(g: Graph, h: Handler, started: seq<Id>, id: Id)
    requires NoDup(started)
    ensures Project(Log(g, h, started), id) == if id in started then EventsOf(g, h, id) else []
  {
    if started == [] {
    } else {
      var front, last := started[..|started| - 1], started[|started| - 1];
      LogOfEachAction(g, h, front, id);
      ProjectConcat(Log(g, h, front), EventsOf(g, h, last), id);
      EventsOfOne(g, h, last, id);
      LastIsNew(started, id);
    }
  }

  lemma LastIsNew(started: seq<Id>, id: Id)
    requires NoDup(started) && started != []
    ensures started[|started| - 1] !in started[..|started| - 1]
    ensures id in started <==> id in started[..|started| - 1] || id == started[|started| - 1]
  {
    assert started == started[..|started| - 1] + [started[|started| - 1]];
  }

  /** The log shows exactly which actions were started, in which order. */
  lemma {:induction false} LogShowsStarts(g: Graph, h: Handler, started: seq<Id>)
    ensures Starts(Log(g, h, started)) == started
  {
    if started == [] {
    } else {
      var front, last := started[..|started| - 1], started[|started| - 1];
      LogShowsStarts(g, h, front);
      StartsGrow(g, h, Log(g, h, front), last);
      RejoinLast(started);
    }
  }

  lemma RejoinLast(started: seq<Id>)
    requires started != []
    ensures started[..|started| - 1] + [started[|started| - 1]] == started
  {
  }

  lemma StartsGrow(g: Graph, h: Handler, log: seq<Event>, id: Id)
    ensures Starts(log + EventsOf(g, h, id)) == Starts(log) + [id]
  {
    StartsConcat(log, EventsOf(g, h, id));
    EventsOfOne(g, h, id, id);
  }

  /** Replaying the log gives every action its final status. */
  lemma {:induction false} ReplayGivesFinalStatus(g: Graph, h: Handler, started: seq<Id>, id: Id)
    requires NoDup(started) && id in g.actions
    ensures Replay(Log(g, h, started), id) == FinalState(g, h, started, id).status
  {
    if started == [] {
    } else {
      var front, last := started[..|started| - 1], started[|started| - 1];
      ReplayGivesFinalStatus(g, h, front, id);
      ReplayConcat(Log(g, h, front), EventsOf(g, h, last), id);
      EventsOfOne(g, h, last, id);
      LastIsNew(started, id);
      if id == last {
        ReplayOne(g, h, id);
      }
    }
  }

  lemma {:induction false} SuccessIsLogged(g: Graph, h: Handler, started: seq<Id>, id: Id)
    requires id in started && Succeeds(g, h, id)
    ensures Event(id, Succeeded) in Log(g, h, started)
  {
    var front, last := started[..|started| - 1], started[|started| - 1];
    assert started == front + [last];
    if id == last {
      assert EventsOf(g, h, id)[1] == Event(id, Succeeded);
    } else {
      SuccessIsLogged(g, h, front, id);
    }
  }

  /** An event is preceded by the success of everything its action directly depends on. */
  ghost predicate DepsSucceededBefore(g: Graph, log: seq<Event>) {
    forall i, dep :: 0 <= i < |log| && g.Edge(log[i].actionId, dep) ==> Event(dep, Succeeded) in log[..i]
  }

  lemma {:induction false} LogRespectsDeps(g: Graph, h: Handler, started: seq<Id>)
    requires g.DepsFirst(started)
    requires forall id :: id in started ==> Runnable(g, h, id)
    ensures DepsSucceededBefore(g, Log(g, h, started))
  {
    if started == [] {
    } else {
      var front, last := started[..|started| - 1], started[|started| - 1];
      assert started == front + [last];
      assert last in started;
      PrefixKeepsDepsFirst(g, started, front);
      LogRespectsDeps(g, h, front);
      var before, log := Log(g, h, front), Log(g, h, started);
      forall i, dep | 0 <= i < |log| && g.Edge(log[i].actionId, dep)
        ensures Event(dep, Succeeded) in log[..i]
      {
        if i < |before| {
          assert log[..i] == before[..i];
        } else {
          assert log[i].actionId == last;
          assert g.Edge(started[|front|], dep);
          assert started[..|front|] == front;
          g.DirectEdge(last, dep);
          SuccessIsLogged(g, h, front, dep);
          assert before <= log[..i];
        }
      }
    }
  }

  /** A FAILED event of an action whose failure is not tolerated. */
  ghost predicate FatalEvent(g: Graph, e: Event) {
    e.status == Failed && e.actionId in g.actions && !g.actions[e.actionId].allowFailure
  }

  lemma {:induction false} QuietLog(g: Graph, h: Handler, started: seq<Id>)
    requires NoneFatal(g, h, started)
    ensures forall e :: e in Log(g, h, started) ==> !FatalEvent(g, e)
  {
    if started == [] {
    } else {
      var front, last := started[..|started| - 1], started[|started| - 1];
      assert started == front + [last];
      QuietLog(g, h, front);
    }
  }

  lemma {:induction false} FatalEventIsLast(g: Graph, h: Handler, started: seq<Id>)
    requires forall id :: id in started ==> id in g.actions
    requires forall i :: 0 <= i < |started| - 1 ==> !Fatal(g, h, started[i])
    ensures var log := Log(g, h, started);
      forall i :: 0 <= i < |log| - 1 ==> !FatalEvent(g, log[i])
  {
    if started != [] {
      var front, last := started[..|started| - 1], started[|started| - 1];
      assert forall id :: id in front ==> id in started;
      QuietLog(g, h, front);
      var before, log := Log(g, h, front), Log(g, h, started);
      forall i | 0 <= i < |log| - 1 ensures !FatalEvent(g, log[i]) {
        if i < |before| {
          assert log[i] == before[i];
        } else {
          assert log[i] == EventsOf(g, h, last)[i - |before|];
        }
      }
    }
  }

  /** Event safety of a run: it shows the plan as the actions started; every action has the
      events RUNNING-SUCCEEDED, RUNNING-FAILED, RUNNING-FAILED-SKIPPED or none; every event
      of an action follows the SUCCEEDED events of its dependencies; nothing follows a failure
      that is not tolerated; and replaying the log gives the reported statuses. */
  lemma LogIsSafe(g: Graph, h: Handler)
    requires g.Valid()
    ensures var log := Log(g, h, Plan(g, h));
      && Starts(log) == Plan(g, h)
      && (forall id :: id in g.actions ==> OneExecution(Project(log, id), id))
      && DepsSucceededBefore(g, log)
      && (forall i :: 0 <= i < |log| - 1 ==> !FatalEvent(g, log[i]))
      && (forall id :: id in g.actions ==> Replay(log, id) == PlanResult(g, h).states[id].status)
  {
    var plan := Plan(g, h);
    PlanIsOrdered(g, h);
    PlanIsComplete(g, h);
    LogShowsStarts(g, h, plan);
    LogRespectsDeps(g, h, plan);
    FatalEventIsLast(g, h, plan);
    forall id | id in g.actions
      ensures OneExecution(Project(Log(g, h, plan), id), id)
      ensures Replay(Log(g, h, plan), id) == PlanResult(g, h).states[id].status
    {
      LogOfEachAction(g, h, plan, id);
      ReplayGivesFinalStatus(g, h, plan, id);
    }
  }

  ghost predicate OneExecution(events: seq<Event>, id: Id) {
    || events == []
    || events == [Event(id, Running), Event(id, Succeeded)]
    || events == [Event(id, Running), Event(id, Failed)]
    || events == [Event(id, Running), Event(id, Failed), Event(id, Skipped)]
  }
}
