/** The wizard's mutable objects: the task that correlates replies (scripts/configure_async.py),
    the step coordinator (scripts/configure_flow.py) and the handlers that use both
    (scripts/configure_tui.py). Each handler does what the protocol's step says. */
module WizardObjects {
  import opened Collections
  import P = WizardProtocol

  class CorrelatedTask {
    var counter: nat
    var activeId: nat

    constructor ()
      ensures counter == 0 && activeId == 0
    {
      counter, activeId := 0, 0;
    }

    /** Claims the next number, which differs from every earlier one. */
    method Begin() returns (id: nat)
      modifies this
      ensures id == counter == activeId == old(counter) + 1
    {
      counter := counter + 1;
      activeId := counter;
      id := counter;
    }

    predicate IsCurrent(id: nat)
      reads this
    {
      id == activeId
    }

    /** No number handed out is current any more. */
    method Cancel()
      modifies this`activeId
      ensures activeId == 0 && forall id: nat :: 0 < id <= counter ==> !IsCurrent(id)
    {
      activeId := 0;
    }
  }

  datatype TransitionResult = TransitionResult(nextStep: nat, stepComplete: bool, finished: bool)

  class FlowCoordinator {
    const stepCount: nat
    var current: nat
    var complete: set<nat>

    ghost predicate Valid()
      reads this
    {
      current < stepCount
    }

    /** Every step before the current one has been left forwards. */
    ghost predicate BehindComplete()
      reads this
    {
      forall i: nat :: i < current ==> i in complete
    }

    constructor (stepCount: nat, current: nat)
      requires current < stepCount
      ensures Valid() && this.stepCount == stepCount && this.current == current && complete == {}
      ensures BehindComplete() <==> current == 0
    {
      this.stepCount := stepCount;
      this.current, complete := current, {};
      new;
      assert current > 0 ==> 0 !in complete;
    }

    /** A coordinator at any step there is; null stands for the error raised for any other. */
    static method Create(stepCount: int, current: int) returns (flow: FlowCoordinator?)
      ensures flow != null <==> 0 <= current < stepCount
      ensures flow != null ==> fresh(flow) && flow.Valid() && flow.stepCount == stepCount
                               && flow.current == current && flow.complete == {}
    {
      flow := null;
      if stepCount <= 0 {
        return;
      }
      if current < 0 || current >= stepCount {
        return;
      }
      flow := new FlowCoordinator(stepCount, current);
    }

    method Advance() returns (r: TransitionResult)
      requires Valid()
      modifies this
      ensures Valid() && (old(BehindComplete()) ==> BehindComplete())
      ensures complete == old(complete) + {old(current)}
      ensures r == TransitionResult(current, true, old(current) == stepCount - 1)
      ensures current == if r.finished then old(current) else old(current) + 1
    {
      complete := complete + {current};
      if current == stepCount - 1 {
        return TransitionResult(current, true, true);
      }
      current := current + 1;
      r := TransitionResult(current, true, false);
    }

    /** Going back changes no completion. */
    method Back() returns (r: TransitionResult)
      requires Valid()
      modifies this`current
      ensures Valid() && (old(BehindComplete()) ==> BehindComplete())
      ensures current == if old(current) == 0 then 0 else old(current) - 1
      ensures r == TransitionResult(current, false, false)
    {
      if current == 0 {
        return TransitionResult(current, false, false);
      }
      current := current - 1;
      r := TransitionResult(current, false, false);
    }
  }

  class ConfigureTui {
    const task: CorrelatedTask
    const flow: FlowCoordinator
    var loading: bool
    var pendingNext: bool
    var pendingId: Option<nat>
    ghost var running: set<nat>
    ghost var validating: set<nat>
    ghost var advancedBy: seq<nat>

    ghost predicate Valid()
      reads this, flow
    {
      flow.Valid() && flow.stepCount == P.STEP_COUNT
    }

    /** The protocol state this object is in. */
    ghost function State(): P.Wizard
      reads this, task, flow
    {
      P.Wizard(flow.current, flow.complete, task.counter, task.activeId, loading, pendingNext, pendingId,
               running, validating, advancedBy)
    }

    constructor ()
      ensures Valid() && State() == P.INITIAL && fresh(task) && fresh(flow)
    {
      task := new CorrelatedTask();
      flow := new FlowCoordinator(P.STEP_COUNT, 0);
      loading, pendingNext, pendingId := false, false, None;
      running, validating, advancedBy := {}, {}, [];
    }

    method LoadCloudOptions(validateForNext: bool, tokenUsable: bool)
      requires Valid()
      modifies this, task
      ensures Valid() && State() == P.LoadCloud(old(State()), validateForNext, tokenUsable)
    {
      var id := task.Begin();
      pendingNext := validateForNext;
      pendingId := if validateForNext then Some(id) else None;
      loading := true;
      if !tokenUsable {
        loading := false;
        pendingNext := false;
        pendingId := None;
        return;
      }
      running := running + {id};
      if validateForNext {
        validating := validating + {id};
      }
    }

    method AdvanceAndRender()
      requires Valid()
      modifies flow
      ensures Valid() && State() == P.Advance(old(State()))
    {
      var result := flow.Advance();
    }

    method PersistCloudStepAndAdvance(persistOk: bool)
      requires Valid()
      modifies this, flow
      ensures Valid() && State() == P.PersistCloudAndAdvance(old(State()), persistOk)
    {
      if !persistOk {
        pendingNext := false;
        return;
      }
      AdvanceAndRender();
    }

    method ActionNext(e: P.Event)
      requires Valid() && e.Next?
      modifies this, task, flow
      ensures Valid() && Some(State()) == P.Step(old(State()), e)
    {
      if loading {
        return;
      }
      if !e.accepted {
        return;
      }
      if flow.current == P.CLOUD {
        if e.needsValidation {
          LoadCloudOptions(true, e.tokenUsable);
          return;
        }
        PersistCloudStepAndAdvance(e.persistOk);
        return;
      }
      if flow.current == P.SERVER && !e.persistOk {
        return;
      }
      if flow.current == P.HERMES && (e.waits || !e.persistOk) {
        return;
      }
      if flow.current == P.TELEGRAM {
        return;
      }
      AdvanceAndRender();
    }

    method ActionBack()
      requires Valid()
      modifies flow
      ensures Valid() && Some(State()) == P.Step(old(State()), P.Back)
    {
      var result := flow.Back();
    }

    method OnProviderChanged(tokenUsable: bool)
      requires Valid()
      modifies this, task
      ensures Valid() && Some(State()) == P.Step(old(State()), P.ProviderChanged(tokenUsable))
    {
      if flow.current == P.CLOUD {
        LoadCloudOptions(false, tokenUsable);
      }
    }

    method OnLocationChanged(tokenUsable: bool)
      requires Valid()
      modifies this, task
      ensures Valid() && Some(State()) == P.Step(old(State()), P.LocationChanged(tokenUsable))
    {
      LoadCloudOptions(false, tokenUsable);
    }

    method RenderStep(tokenUsable: bool)
      requires Valid()
      modifies this, task
      ensures Valid() && Some(State()) == P.Step(old(State()), P.Render(tokenUsable))
    {
      if flow.current == P.CLOUD && !loading {
        LoadCloudOptions(false, tokenUsable);
      }
    }

    method CloudLoaded(id: nat, ok: bool, persistOk: bool)
      requires Valid() && id in running
      modifies this, flow
      ensures Valid() && Some(State()) == P.Step(old(State()), P.Reply(id, ok, persistOk))
    {
      running := running - {id};
      if !task.IsCurrent(id) {
        return;
      }
      loading := false;
      if !ok {
        pendingNext := false;
        pendingId := None;
        return;
      }
      if pendingNext && pendingId == Some(id) && flow.current == P.CLOUD {
        pendingNext := false;
        pendingId := None;
        if persistOk {
          advancedBy := advancedBy + [id];
        }
        PersistCloudStepAndAdvance(persistOk);
      }
    }
  }
}
