/** The wizard's request/reply protocol with the widgets erased: which late reply may do what
    (the cloud handlers of scripts/configure_tui.py). */
module WizardProtocol {
  import opened Collections

  const CLOUD := 0
  const SERVER := 1
  const HERMES := 2
  const TELEGRAM := 3
  const REVIEW := 4
  const STEP_COUNT := 5

  /** The flags of the application, the numbers of its cloud task, the steps, and as history the
      workers still running, the requests begun by a validating Next and the replies that moved
      the cloud step forward. */
  datatype Wizard = Wizard(
    step: nat, complete: set<nat>,
    counter: nat, activeId: nat,
    loading: bool, pendingNext: bool, pendingId: Option<nat>,
    running: set<nat>, validating: set<nat>, advancedBy: seq<nat>)

  const INITIAL := Wizard(CLOUD, {}, 0, 0, false, false, None, {}, {}, [])

  /** What the user, the workers and the rest of the application do; the flags are the outcomes
      of the parts not modelled. */
  datatype Event =
    | Next(accepted: bool, needsValidation: bool, tokenUsable: bool, persistOk: bool, waits: bool)
    | Back
    | ProviderChanged(tokenUsable: bool)
    | LocationChanged(tokenUsable: bool)
    | Render(tokenUsable: bool)
    | Reply(id: nat, ok: bool, persistOk: bool)
    | OtherReply(persistOk: bool)

  /** Moving forward marks the step left as complete; the last step is not left. */
  function Advance(w: Wizard): Wizard {
    w.(complete := w.complete + {w.step}, step := if w.step + 1 < STEP_COUNT then w.step + 1 else w.step)
  }

  function GoBack(w: Wizard): Wizard {
    w.(step := if w.step > 0 then w.step - 1 else w.step)
  }

  /** A new cloud request; without a usable token it ends at once and starts no worker. */
  function LoadCloud(w: Wizard, validate: bool, tokenUsable: bool): Wizard {
    var id := w.counter + 1;
    var begun := w.(counter := id, activeId := id);
    if !tokenUsable then begun.(loading := false, pendingNext := false, pendingId := None)
    else begun.(loading := true, pendingNext := validate, pendingId := if validate then Some(id) else None,
                running := w.running + {id},
                validating := if validate then w.validating + {id} else w.validating)
  }

  function PersistCloudAndAdvance(w: Wizard, persistOk: bool): Wizard {
    if persistOk then Advance(w) else w.(pendingNext := false)
  }

  /** Next: accepted says that the widgets could be read, that there are no errors and that the
      step has no other work under way; waits says that the step now waits for another reply. */
  function OnNext(w: Wizard, e: Event): Wizard
    requires e.Next?
  {
    if w.loading || !e.accepted then w
    else if w.step == CLOUD then
      if e.needsValidation then LoadCloud(w, true, e.tokenUsable) else PersistCloudAndAdvance(w, e.persistOk)
    else if w.step == TELEGRAM || (w.step == HERMES && e.waits) then w
    else if w.step != REVIEW && !e.persistOk then w
    else Advance(w)
  }

  /** A reply to a cloud request. Only the active request's reply has any effect on the flags,
      and only a pending one, accepted on the cloud step, moves on. */
  function OnReply(w: Wizard, e: Event): Wizard
    requires e.Reply?
  {
    var r := w.(running := w.running - {e.id});
    if e.id != w.activeId then r
    else
      var idle := r.(loading := false);
      if !e.ok then idle.(pendingNext := false, pendingId := None)
      else if w.pendingNext && w.pendingId == Some(e.id) && w.step == CLOUD then
        var cleared := idle.(pendingNext := false, pendingId := None);
        var after := PersistCloudAndAdvance(cleared, e.persistOk);
        if e.persistOk then after.(advancedBy := w.advancedBy + [e.id]) else after
      else idle
  }

  /** One event; a reply comes from a worker that is still running. */
  function Step(w: Wizard, e: Event): Option<Wizard> {
    match e
    case Next(_, _, _, _, _) => Some(OnNext(w, e))
    case Back => Some(GoBack(w))
    case ProviderChanged(usable) => Some(if w.step == CLOUD then LoadCloud(w, false, usable) else w)
    case LocationChanged(usable) => Some(LoadCloud(w, false, usable))
    case Render(usable) => Some(if w.step == CLOUD && !w.loading then LoadCloud(w, false, usable) else w)
    case Reply(id, _, _) => if id in w.running then Some(OnReply(w, e)) else None
    case OtherReply(persistOk) =>
      Some(if (w.step == HERMES || w.step == TELEGRAM) && persistOk then Advance(w) else w)
  }

  function Run(events: seq<Event>): Option<Wizard> {
    if events == [] then Some(INITIAL)
    else
      match Run(events[..|events| - 1])
      case None => None
      case Some(w) => Step(w, events[|events| - 1])
  }

  /** What holds between events, whatever their order. */
  ghost predicate Consistent(w: Wizard) {
    && w.step < STEP_COUNT
    && (forall i: nat :: i < w.step ==> i in w.complete)
    && w.activeId == w.counter
    && (w.loading <==> w.activeId in w.running)
    && (w.pendingNext ==> w.pendingId == Some(w.activeId) && w.loading && w.step == CLOUD && w.activeId in w.validating)
    && (!w.pendingNext ==> w.pendingId == None)
    && (forall id :: id in w.running ==> 0 < id <= w.counter)
    && (forall id :: id in w.validating ==> 0 < id <= w.counter)
    && NoDup(w.advancedBy)
    && (forall id :: id in w.advancedBy ==> id in w.validating && id !in w.running)
  }

  lemma LoadKeepsConsistent(w: Wizard, validate: bool, tokenUsable: bool)
    requires Consistent(w) && (validate ==> w.step == CLOUD)
    ensures Consistent(LoadCloud(w, validate, tokenUsable))
  {
    assert w.counter + 1 !in w.running && w.counter + 1 !in w.validating;
  }

  lemma AdvanceKeepsConsistent(w: Wizard)
    requires Consistent(w) && !w.pendingNext
    ensures Consistent(Advance(w))
  {
  }

  lemma ReplyKeepsConsistent(w: Wizard, e: Event)
    requires Consistent(w) && e.Reply? && e.id in w.running
    ensures Consistent(OnReply(w, e))
  {
    assert e.id !in w.advancedBy;
  }

  lemma StepKeepsConsistent(w: Wizard, e: Event)
    requires Consistent(w) && Step(w, e).Some?
    ensures Consistent(Step(w, e).value)
  {
    match e
    case Next(_, _, _, _, _) =>
      if !w.loading && e.accepted && w.step == CLOUD && e.needsValidation {
        LoadKeepsConsistent(w, true, e.tokenUsable);
      } else if !w.loading {
        AdvanceKeepsConsistent(w);
      }
    case Back =>
    case ProviderChanged(usable) => LoadKeepsConsistent(w, false, usable);
    case LocationChanged(usable) => LoadKeepsConsistent(w, false, usable);
    case Render(usable) => LoadKeepsConsistent(w, false, usable);
    case Reply(_, _, _) => ReplyKeepsConsistent(w, e);
    case OtherReply(_) =>
      if !w.pendingNext {
        AdvanceKeepsConsistent(w);
      }
  }

  /** In every interleaving: loading holds exactly while the worker of the active request has
      not replied, a pending advance carries the active id, and all steps before the current
      one are complete. */
  lemma {:induction false} RunIsConsistent(events: seq<Event>)
    requires Run(events).Some?
    ensures Consistent(Run(events).value)
  {
    if events == [] {
    } else {
      RunIsConsistent(events[..|events| - 1]);
      StepKeepsConsistent(Run(events[..|events| - 1]).value, events[|events| - 1]);
    }
  }

  /** In any run, the cloud step is left only by a Next that needs no validation or by the
      successful reply to the newest request, which a validating Next had begun and which no
      later request has replaced. */
  lemma CloudIsLeftByNewestReply(events: seq<Event>, e: Event)
    requires Run(events).Some? && Run(events).value.step == CLOUD
    requires Step(Run(events).value, e).Some? && Step(Run(events).value, e).value.step != CLOUD
    ensures var w := Run(events).value;
      || (e.Next? && e.accepted && !e.needsValidation && e.persistOk && !w.loading)
      || (e.Reply? && e.ok && e.persistOk && e.id == w.counter && e.id in w.validating && w.pendingId == Some(e.id)
          && Step(w, e).value.advancedBy == w.advancedBy + [e.id])
  {
    RunIsConsistent(events);
  }

  /** What takes the wizard one step forward in a state that can be reached: an accepted Next that
      has nothing to wait for and whose step is persisted, the successful reply to the newest
      request while its advance is pending, or the reply the Hermes or the Telegram step awaits. */
  ghost predicate MovesForward(w: Wizard, e: Event) {
    || (e.Next? && !w.loading && e.accepted && e.persistOk && w.step == CLOUD && !e.needsValidation)
    || (e.Next? && !w.loading && e.accepted && e.persistOk && w.step == SERVER)
    || (e.Next? && !w.loading && e.accepted && e.persistOk && w.step == HERMES && !e.waits)
    || (e.Reply? && e.ok && e.persistOk && w.pendingNext && e.id == w.counter)
    || (e.OtherReply? && e.persistOk && w.step in {HERMES, TELEGRAM})
  }

  /** An accepted Next on the last step finishes the wizard. */
  ghost predicate Finishes(w: Wizard, e: Event) {
    e.Next? && !w.loading && e.accepted && w.step == REVIEW
  }

  /** The step changes exactly so: one forward, completing the step left; one back, completing
      nothing; and not at all otherwise. */
  lemma StepMovesExactly(events: seq<Event>, e: Event)
    requires Run(events).Some? && Step(Run(events).value, e).Some?
    ensures var w := Run(events).value; var w' := Step(w, e).value;
      && (MovesForward(w, e) <==> w'.step == w.step + 1)
      && (e.Back? && w.step > CLOUD <==> w'.step == w.step - 1)
      && (w'.step in {w.step - 1, w.step, w.step + 1})
      && w'.complete == (if MovesForward(w, e) || Finishes(w, e) then w.complete + {w.step} else w.complete)
  {
    RunIsConsistent(events);
    if e.Next? && Run(events).value.step == CLOUD {
      assert Step(Run(events).value, e).value.complete == Run(events).value.complete
        || Step(Run(events).value, e).value.complete == Run(events).value.complete + {CLOUD};
    }
  }

  /** When a new cloud request is made. */
  ghost predicate Requests(w: Wizard, e: Event) {
    || (e.ProviderChanged? && w.step == CLOUD)
    || e.LocationChanged?
    || (e.Render? && w.step == CLOUD && !w.loading)
    || (e.Next? && !w.loading && e.accepted && w.step == CLOUD && e.needsValidation)
  }

  ghost predicate TokenUsable(e: Event) {
    match e
    case Next(_, _, usable, _, _) => usable
    case ProviderChanged(usable) => usable
    case LocationChanged(usable) => usable
    case Render(usable) => usable
    case _ => false
  }

  /** A request gets a new number, and with a usable token a worker; the advance of a Next is then
      pending, any other pending advance is dropped. Without a usable token nothing is loading or
      pending. Events that make no request and are no reply leave all of this alone. */
  lemma RequestsExactly(events: seq<Event>, e: Event)
    requires Run(events).Some? && Step(Run(events).value, e).Some?
    ensures var w := Run(events).value; var w' := Step(w, e).value;
      if Requests(w, e) then
        && w'.counter == w.counter + 1
        && w'.loading == TokenUsable(e) && w'.pendingNext == (TokenUsable(e) && e.Next?)
        && w'.running == (if TokenUsable(e) then w.running + {w.counter + 1} else w.running)
        && w'.advancedBy == w.advancedBy
      else
        && w'.counter == w.counter
        && (!e.Reply? ==> w'.loading == w.loading && w'.pendingNext == w.pendingNext && w'.running == w.running
                          && w'.advancedBy == w.advancedBy)
  {
    RunIsConsistent(events);
  }

  /** The reply to the newest request ends loading and whatever was pending; it moves the cloud step
      forward exactly when its advance was pending, it is a success and the step can be persisted. */
  lemma NewestReplyDecides(events: seq<Event>, ok: bool, persistOk: bool)
    requires Run(events).Some? && Run(events).value.counter in Run(events).value.running
    ensures var w := Run(events).value; var after := Step(w, Reply(w.counter, ok, persistOk));
      && after.Some? && !after.value.loading && !after.value.pendingNext
      && after.value.running == w.running - {w.counter}
      && if w.pendingNext && ok && persistOk
         then w.step == CLOUD && after.value.step == SERVER && after.value.complete == w.complete + {CLOUD}
              && after.value.advancedBy == w.advancedBy + [w.counter]
         else after.value.step == w.step && after.value.complete == w.complete && after.value.advancedBy == w.advancedBy
  {
    RunIsConsistent(events);
  }

  /** What does not disturb request id: anything but its own reply and a newer request. */
  ghost predicate Undisturbing(e: Event, id: nat) {
    !e.ProviderChanged? && !e.LocationChanged? && !(e.Reply? && e.id == id)
  }

  lemma PendingSurvives(w: Wizard, e: Event)
    requires Consistent(w) && w.pendingNext && Undisturbing(e, w.counter) && Step(w, e).Some?
    ensures var w' := Step(w, e).value;
      && w'.pendingNext && w'.counter == w.counter && w'.step == CLOUD
      && w'.advancedBy == w.advancedBy && w.counter in w'.running
  {
  }

  /** A request is pending after a history that does not disturb it. */
  lemma {:induction false} StillPending(events: seq<Event>, between: seq<Event>, id: nat)
    requires Run(events).Some? && Run(events).value.pendingNext && Run(events).value.counter == id
    requires Run(events + between).Some? && forall e :: e in between ==> Undisturbing(e, id)
    ensures var w := Run(events + between).value;
      && w.pendingNext && w.counter == id && w.step == CLOUD && id in w.running
      && w.advancedBy == Run(events).value.advancedBy
  {
    if between == [] {
      assert events + between == events;
      RunIsConsistent(events);
    } else {
      var front, last := between[..|between| - 1], between[|between| - 1];
      assert (events + between)[..|events + between| - 1] == events + front;
      assert last in between;
      StillPending(events, front, id);
      RunIsConsistent(events + front);
      PendingSurvives(Run(events + front).value, last);
    }
  }

  /** A validating Next gets where it wants to: whatever happens in between, except a newer request,
      the success of its own reply takes the wizard to the server step. */
  lemma ValidatingNextArrives(events: seq<Event>, next: Event, between: seq<Event>)
    requires Run(events).Some? && Run(events).value.step == CLOUD && !Run(events).value.loading
    requires next.Next? && next.accepted && next.needsValidation && next.tokenUsable
    requires Run((events + [next]) + between).Some?
    requires forall e :: e in between ==> Undisturbing(e, Run(events).value.counter + 1)
    ensures var id := Run(events).value.counter + 1;
      var after := Run(((events + [next]) + between) + [Reply(id, true, true)]);
      && after.Some? && after.value.step == SERVER && CLOUD in after.value.complete
      && after.value.advancedBy == Run(events).value.advancedBy + [id]
  {
    var id := Run(events).value.counter + 1;
    var begun := events + [next];
    var waited := begun + between;
    assert begun[..|events|] == events;
    RequestsExactly(events, next);
    StillPending(begun, between, id);
    NewestReplyDecides(waited, true, true);
    assert (waited + [Reply(id, true, true)])[..|waited|] == waited;
  }

  /** A reply to any other request than the newest changes nothing but that its worker is done. */
  lemma StaleReplyIsIgnored(events: seq<Event>, e: Event)
    requires Run(events).Some? && e.Reply? && e.id in Run(events).value.running
    requires e.id != Run(events).value.counter
    ensures var w := Run(events).value; Step(w, e) == Some(w.(running := w.running - {e.id}))
  {
    RunIsConsistent(events);
  }

  /** Validating Nexts that started a worker. */
  function ValidatingNexts(events: seq<Event>): nat {
    if events == [] then 0
    else
      var front, e := events[..|events| - 1], events[|events| - 1];
      ValidatingNexts(front) +
        if Run(front).Some? && e.Next? && BeginsValidation(Run(front).value, e) then 1 else 0
  }

  predicate BeginsValidation(w: Wizard, e: Event)
    requires e.Next?
  {
    !w.loading && e.accepted && w.step == CLOUD && e.needsValidation && e.tokenUsable
  }

  lemma {:induction false} ValidationsCounted(events: seq<Event>)
    requires Run(events).Some?
    ensures |Run(events).value.validating| == ValidatingNexts(events)
  {
    if events == [] {
    } else {
      var front, e := events[..|events| - 1], events[|events| - 1];
      ValidationsCounted(front);
      RunIsConsistent(front);
      ValidationBegun(Run(front).value, e);
    }
  }

  /** An event begins a validation or leaves the set of those begun alone. */
  lemma ValidationBegun(w: Wizard, e: Event)
    requires Consistent(w) && Step(w, e).Some?
    ensures |Step(w, e).value.validating| == |w.validating| + if e.Next? && BeginsValidation(w, e) then 1 else 0
  {
    assert w.counter + 1 !in w.validating;
  }

  /** Each validating Next moves the cloud step forward at most once. */
  lemma AdvancesAreBounded(events: seq<Event>)
    requires Run(events).Some?
    ensures NoDup(Run(events).value.advancedBy)
    ensures |Run(events).value.advancedBy| <= ValidatingNexts(events)
  {
    RunIsConsistent(events);
    ValidationsCounted(events);
    NoDupBounded(Run(events).value.advancedBy, Run(events).value.validating);
  }
}
