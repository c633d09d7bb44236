/** What a run of a graph must do, said without the engine's loop: which actions start, in
    which order, what each leaves behind and which events are emitted. */
module RunSpec {
  import opened Collections
  import opened ActionGraph
  import opened Preview

  datatype ActionStatus = Pending | Ready | Running | Succeeded | Failed | Skipped | Blocked | Cancelled

  datatype RuntimeState =
    RuntimeState(status: ActionStatus, attempts: nat, lastError: Option<string>, result: Option<string>)

  datatype EngineResult =
    EngineResult(states: map<Id, RuntimeState>, completed: bool, failed: bool, cancelled: bool)

  const INITIAL_STATE := RuntimeState(Pending, 0, None, None)

  datatype Event = Event(actionId: Id, status: ActionStatus)

  /** What calling the handler and normalising its result does. A command failure may carry
      a result of its own. */
  datatype Outcome =
    | Success(result: string)
    | Failure(message: string, details: Option<string>)

  /** The outcome of every attempt an action could make, attempts counted from 1. */
  type Handler = (Id, nat) -> Outcome

  function MaxAttempts(d: ActionDescriptor): (r: nat)
    ensures r >= 1
  {
    Max(1, d.retryPolicy.maxAttempts)
  }

  /** How often an action may be tried. */
  function Budget(d: ActionDescriptor): (r: nat)
    ensures r >= 1
  {
    if d.retryPolicy.kind.NoRetry? then 1 else MaxAttempts(d)
  }

  /** The number of attempts made when up to n more may follow the first k - 1 failures. */
  ghost function AttemptsFrom(h: Handler, id: Id, k: nat, budget: nat): nat
    requires 1 <= k <= budget
    decreases budget - k
  {
    if h(id, k).Success? || k == budget then k else AttemptsFrom(h, id, k + 1, budget)
  }

  /** The details of the last failure with details among the first n attempts. */
  ghost function LastDetails(h: Handler, id: Id, n: nat): Option<string> {
    if n == 0 then None
    else if h(id, n).Failure? && h(id, n).details.Some? then h(id, n).details
    else LastDetails(h, id, n - 1)
  }

  /** Some attempt within the budget succeeds. */
  ghost predicate Succeeds(g: Graph, h: Handler, id: Id) {
    id in g.actions && exists k :: 1 <= k <= Budget(g.actions[id]) && h(id, k).Success?
  }

  ghost predicate Fatal(g: Graph, h: Handler, id: Id) {
    id in g.actions && !Succeeds(g, h, id) && !g.actions[id].allowFailure
  }

  ghost predicate Tolerated(g: Graph, h: Handler, id: Id) {
    id in g.actions && !Succeeds(g, h, id) && g.actions[id].allowFailure
  }

  /** Everything id depends on, directly or not, succeeds. */
  ghost predicate Runnable(g: Graph, h: Handler, id: Id) {
    forall dep :: g.DependsOn(id, dep) ==> Succeeds(g, h, dep)
  }

  ghost function RunnableTest(g: Graph, h: Handler): Id -> bool {
    id => Runnable(g, h, id)
  }

  ghost function FatalTest(g: Graph, h: Handler): Id -> bool {
    id => Fatal(g, h, id)
  }

  ghost function RunnableOnly(g: Graph, h: Handler, s: seq<Id>): seq<Id> {
    Filter(s, RunnableTest(g, h))
  }

  ghost function UpToFatal(g: Graph, h: Handler, s: seq<Id>): seq<Id> {
    CutAfter(s, FatalTest(g, h))
  }

  /** The actions a run starts: the preview order without those that have an unsuccessful
      transitive dependency, up to and including the first failure that is not tolerated. */
  ghost function Plan(g: Graph, h: Handler): seq<Id>
    requires g.IsDict()
  {
    UpToFatal(g, h, RunnableOnly(g, h, PreviewOrder(g)))
  }

  /** The state an action is left in once it has been executed. */
  ghost function StateAfter(g: Graph, h: Handler, id: Id): RuntimeState
    requires id in g.actions
  {
    var n := AttemptsFrom(h, id, 1, Budget(g.actions[id]));
    match h(id, n)
    case Success(result) => RuntimeState(Succeeded, n, None, Some(result))
    case Failure(message, _) =>
      var status := if g.actions[id].allowFailure then Skipped else Failed;
      RuntimeState(status, n, Some(message), LastDetails(h, id, n))
  }

  ghost function FinalState(g: Graph, h: Handler, started: seq<Id>, id: Id): RuntimeState
    requires id in g.actions
  {
    if id in started then StateAfter(g, h, id) else INITIAL_STATE
  }

  /** The states of all actions when exactly those in started have been executed. */
  ghost function Snapshot(g: Graph, h: Handler, started: seq<Id>): map<Id, RuntimeState> {
    map id | id in g.actions :: FinalState(g, h, started, id)
  }

  /** The result a run must report: it failed when the plan contains a fatal failure, and it
      completed when every action ended SUCCEEDED or SKIPPED. */
  ghost function PlanResult(g: Graph, h: Handler): EngineResult
    requires g.IsDict()
  {
    var states := Snapshot(g, h, Plan(g, h));
    EngineResult(states,
                 forall id :: id in states ==> states[id].status in {Succeeded, Skipped},
                 exists id :: id in Plan(g, h) && Fatal(g, h, id),
                 false)
  }

  /** The events one executed action emits. */
  ghost function EventsOf(g: Graph, h: Handler, id: Id): seq<Event> {
    if Succeeds(g, h, id) then [Event(id, Running), Event(id, Succeeded)]
    else if Tolerated(g, h, id) then [Event(id, Running), Event(id, Failed), Event(id, Skipped)]
    else [Event(id, Running), Event(id, Failed)]
  }

  ghost function Log(g: Graph, h: Handler, started: seq<Id>): seq<Event> {
    if started == [] then []
    else Log(g, h, started[..|started| - 1]) + EventsOf(g, h, started[|started| - 1])
  }

  /** Attempts stop at the first success, or at the budget when there is none. */
  lemma {:induction false} AttemptsMeaning(h: Handler, id: Id, k: nat, budget: nat)
    requires 1 <= k <= budget
    ensures var n := AttemptsFrom(h, id, k, budget);
      && k <= n <= budget
      && (forall j :: k <= j < n ==> h(id, j).Failure?)
      && (h(id, n).Success? || n == budget)
    decreases budget - k
  {
    if h(id, k).Failure? && k < budget {
      AttemptsMeaning(h, id, k + 1, budget);
    }
  }

  /** An executed action ends SUCCEEDED, FAILED or SKIPPED according to its outcomes and its
      tolerance, and uses no more attempts than its budget. */
  lemma StateAfterMeaning(g: Graph, h: Handler, id: Id)
    requires id in g.actions
    ensures var st := StateAfter(g, h, id);
      && 1 <= st.attempts <= Budget(g.actions[id])
      && (st.status == Succeeded <==> Succeeds(g, h, id))
      && (st.status == Skipped <==> Tolerated(g, h, id))
      && (st.status == Failed <==> Fatal(g, h, id))
      && (!Succeeds(g, h, id) ==> st.attempts == Budget(g.actions[id]))
      && (Succeeds(g, h, id) ==> h(id, st.attempts).Success?)
      && (forall j :: 1 <= j < st.attempts ==> h(id, j).Failure?)
      && (st.lastError.Some? <==> !Succeeds(g, h, id))
  {
    AttemptsMeaning(h, id, 1, Budget(g.actions[id]));
  }

  /** What an executed action is left with, on its descriptor and the outcomes alone: it is tried
      until it succeeds, once without retries and otherwise as often as its policy says, but at
      least once. A failed action keeps the details of the last attempt that had some. */
  ghost predicate Executed(d: ActionDescriptor, h: Handler, id: Id, st: RuntimeState) {
    var limit := if d.retryPolicy.kind.NoRetry? || d.retryPolicy.maxAttempts <= 1 then 1 else d.retryPolicy.maxAttempts;
    if exists k :: 1 <= k <= limit && h(id, k).Success? then
      && st.status == Succeeded && 1 <= st.attempts <= limit && st.lastError == None
      && st.result.Some? && h(id, st.attempts) == Success(st.result.value)
      && forall j :: 1 <= j < st.attempts ==> h(id, j).Failure?
    else
      && st.status == (if d.allowFailure then Skipped else Failed) && st.attempts == limit
      && st.lastError == Some(h(id, limit).message)
      && (st.result.None? ==> forall j :: 1 <= j <= limit ==> h(id, j).details.None?)
      && (st.result.Some? ==> exists k :: KeptDetails(h, id, k, limit, st.result))
  }

  /** The k-th of the limit failures is the last one with details, and those are the ones kept. */
  ghost predicate KeptDetails(h: Handler, id: Id, k: int, limit: int, kept: Option<string>) {
    && 1 <= k <= limit && h(id, k).Failure? && h(id, k).details == kept
    && forall j :: k < j <= limit ==> h(id, j).Failure? && h(id, j).details.None?
  }

  lemma {:induction false} LastDetailsMeaning(h: Handler, id: Id, n: nat)
    requires forall j :: 1 <= j <= n ==> h(id, j).Failure?
    ensures LastDetails(h, id, n).None? ==> forall j :: 1 <= j <= n ==> h(id, j).details.None?
    ensures LastDetails(h, id, n).Some? ==> exists k :: KeptDetails(h, id, k, n, LastDetails(h, id, n))
  {
    if n == 0 {
    } else if h(id, n).details.Some? {
      assert KeptDetails(h, id, n, n, LastDetails(h, id, n));
    } else {
      LastDetailsMeaning(h, id, n - 1);
      if LastDetails(h, id, n).Some? {
        var k :| KeptDetails(h, id, k, n - 1, LastDetails(h, id, n - 1));
        assert KeptDetails(h, id, k, n, LastDetails(h, id, n));
      }
    }
  }

  lemma ExecutionMeaning(g: Graph, h: Handler, id: Id)
    requires id in g.actions
    ensures Executed(g.actions[id], h, id, StateAfter(g, h, id))
  {
    var limit := Budget(g.actions[id]);
    AttemptsMeaning(h, id, 1, limit);
    if !Succeeds(g, h, id) {
      LastDetailsMeaning(h, id, limit);
    }
  }

  /** The states of a run that has executed exactly the actions in plan. */
  ghost predicate CarriedOut(g: Graph, h: Handler, plan: seq<Id>, states: map<Id, RuntimeState>) {
    && states.Keys == g.actions.Keys
    && forall id :: id in g.actions ==>
         if id in plan then Executed(g.actions[id], h, id, states[id])
         else states[id] == RuntimeState(Pending, 0, None, None)
  }

  lemma ResultIsCarriedOut(g: Graph, h: Handler)
    requires g.IsDict()
    ensures CarriedOut(g, h, Plan(g, h), PlanResult(g, h).states)
  {
    hide Plan;
    hide Executed;
    hide StateAfter;
    forall id | id in g.actions { ExecutionMeaning(g, h, id); }
  }

  /** Whether an action succeeds, on its descriptor and the outcomes alone. */
  lemma SuccessMeaning(g: Graph, h: Handler, id: Id)
    requires id in g.actions
    ensures var policy := g.actions[id].retryPolicy;
      Succeeds(g, h, id) <==>
        if policy.kind.NoRetry? then h(id, 1).Success?
        else h(id, 1).Success? || exists k :: 2 <= k <= policy.maxAttempts && h(id, k).Success?
  {
  }

  lemma RunnableStep(g: Graph, h: Handler, id: Id)
    ensures Runnable(g, h, id) <==>
            forall dep :: g.Edge(id, dep) ==> Succeeds(g, h, dep) && Runnable(g, h, dep)
  {
    if Runnable(g, h, id) {
      forall dep | g.Edge(id, dep) ensures Succeeds(g, h, dep) && Runnable(g, h, dep) {
        g.DirectEdge(id, dep);
        forall far | g.DependsOn(dep, far) ensures Succeeds(g, h, far) {
          g.EdgeThenPath(id, dep, far);
        }
      }
    }
    if forall dep :: g.Edge(id, dep) ==> Succeeds(g, h, dep) && Runnable(g, h, dep) {
      forall far | g.DependsOn(id, far) ensures Succeeds(g, h, far) {
        var dep := g.FirstEdge(id, far);
      }
    }
  }

  /** When nothing in the next wave is runnable, nothing later is. */
  lemma {:induction false} StuckFrontier(g: Graph, h: Handler, done: seq<Id>)
    requires g.IsDict() && Listed(g, done)
    requires RunnableOnly(g, h, Wave(g, done)) == []
    ensures RunnableOnly(g, h, WavesFrom(g, done)) == RunnableOnly(g, h, done)
    decreases |g.order| - |done|
  {
    var wave := Wave(g, done);
    if wave != [] {
      WaveKeepsListed(g, done);
      var next := Wave(g, done + wave);
      forall id | id in next ensures !Runnable(g, h, id) {
        if forall dep :: dep in g.actions[id].deps ==> dep in done {
          assert InNextWave(g, done, id);
        }
        var dep :| dep in g.actions[id].deps && dep !in done;
        assert g.Edge(id, dep) && dep in wave;
        assert dep !in RunnableOnly(g, h, wave);
        RunnableStep(g, h, id);
      }
      FilterNone(next, RunnableTest(g, h));
      StuckFrontier(g, h, done + wave);
      FilterConcat(done, wave, RunnableTest(g, h));
    }
  }
}
