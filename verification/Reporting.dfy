/** What is reported about a finished run: which action is blamed for a failure
    (graph_failure_from_result, presentation_from_engine_result) and how the statuses are
    counted (_progress_summary). */
module Reporting {
  import opened Collections
  import opened ActionGraph
  import opened Preview
  import opened RunSpec
  import opened RunProperties

  datatype Attribution = Unclassified | Blamed(actionId: Id, message: string, status: ActionStatus)

  /** An error message that counts as one: present and not empty. */
  predicate HasError(st: RuntimeState) {
    st.lastError.Some? && st.lastError.value != ""
  }

  predicate Present(ids: seq<Id>, states: map<Id, RuntimeState>) {
    forall id :: id in ids ==> id in states
  }

  /** The first listed action with an error. */
  function FirstError(ids: seq<Id>, states: map<Id, RuntimeState>): (r: Option<Id>)
    requires Present(ids, states)
    ensures r.None? ==> forall id :: id in ids ==> !HasError(states[id])
    ensures r.Some? ==> r.value in ids && HasError(states[r.value])
    ensures r.Some? ==> exists i :: FirstAt(ids, states, i) && ids[i] == r.value
  {
    if ids == [] then None
    else if HasError(states[ids[0]]) then
      assert FirstAt(ids, states, 0);
      Some(ids[0])
    else
      assert forall id :: id in ids ==> id == ids[0] || id in ids[1..];
      var rest := FirstError(ids[1..], states);
      assert rest.Some? ==> exists i :: FirstAt(ids, states, i) && ids[i] == rest.value by {
        if rest.Some? {
          var i :| FirstAt(ids[1..], states, i) && ids[1..][i] == rest.value;
          assert forall j :: 0 < j <= i ==> ids[j] == ids[1..][j - 1];
          assert FirstAt(ids, states, i + 1);
        }
      }
      rest
  }

  ghost predicate FirstAt(ids: seq<Id>, states: map<Id, RuntimeState>, i: int) {
    && 0 <= i < |ids| && Present(ids, states)
    && HasError(states[ids[i]])
    && forall j :: 0 <= j < i ==> !HasError(states[ids[j]])
  }

  function BlameOf(id: Id, st: RuntimeState): Attribution
    requires HasError(st)
  {
    Blamed(id, st.lastError.value, st.status)
  }

  /** The failure shown on the command line: the first error in graph order. */
  function GraphFailure(order: seq<Id>, states: map<Id, RuntimeState>): (r: Attribution)
    requires Present(order, states)
    ensures r.Unclassified? <==> forall id :: id in order ==> !HasError(states[id])
    ensures r.Blamed? ==> exists i :: FirstAt(order, states, i) && r == BlameOf(order[i], states[order[i]])
  {
    match FirstError(order, states)
    case None => Unclassified
    case Some(id) => BlameOf(id, states[id])
  }

  /** Whether a comes no later than b in the code-point order of strings. */
  predicate NotAfter(a: string, b: string) {
    a == "" || (b != "" && (a[0] < b[0] || (a[0] == b[0] && NotAfter(a[1..], b[1..]))))
  }

  function InsertSorted(id: Id, s: seq<Id>): (r: seq<Id>)
    ensures multiset(r) == multiset(s) + multiset{id}
    ensures r[0] == if s == [] || NotAfter(id, s[0]) then id else s[0]
  {
    if s == [] then [id]
    else if NotAfter(id, s[0]) then [id] + s
    else
      assert s == [s[0]] + s[1..];
      [s[0]] + InsertSorted(id, s[1..])
  }

  function SortIds(s: seq<Id>): (r: seq<Id>)
    ensures multiset(r) == multiset(s)
  {
    if s == [] then []
    else
      assert s == [s[0]] + s[1..];
      InsertSorted(s[0], SortIds(s[1..]))
  }

  ghost predicate Ascending(s: seq<Id>) {
    |s| < 2 || (NotAfter(s[0], s[1]) && Ascending(s[1..]))
  }

  lemma {:induction false} NotAfterTotal(a: string, b: string)
    ensures NotAfter(a, b) || NotAfter(b, a)
  {
    if a != "" && b != "" {
      NotAfterTotal(a[1..], b[1..]);
    }
  }

  /** The order of strings: a is a prefix of b, or at the first place where they differ a has the
      smaller code point. */
  lemma {:induction false} NotAfterMeaning(a: string, b: string)
    ensures NotAfter(a, b) <==> a <= b || exists n :: SmallerAt(a, b, n)
  {
    if a == "" || b == "" || a[0] != b[0] {
      assert a != "" && b != "" ==> (SmallerAt(a, b, 0) <==> a[0] < b[0]);
    } else {
      NotAfterMeaning(a[1..], b[1..]);
      assert a == a[..1] + a[1..] && b == b[..1] + b[1..];
      if exists n :: SmallerAt(a, b, n) {
        var n :| SmallerAt(a, b, n);
        assert a[..n][1..] == a[1..][..n - 1] && b[..n][1..] == b[1..][..n - 1];
        assert SmallerAt(a[1..], b[1..], n - 1);
      }
      if exists n :: SmallerAt(a[1..], b[1..], n) {
        var n :| SmallerAt(a[1..], b[1..], n);
        assert a[..n + 1] == a[..1] + a[1..][..n] && b[..n + 1] == b[..1] + b[1..][..n];
        assert SmallerAt(a, b, n + 1);
      }
    }
  }

  ghost predicate SmallerAt(a: string, b: string, n: int) {
    0 <= n < |a| && n < |b| && a[..n] == b[..n] && a[n] < b[n]
  }

  lemma {:induction false} InsertAscending(id: Id, s: seq<Id>)
    requires Ascending(s)
    ensures Ascending(InsertSorted(id, s))
  {
    if s != [] && !NotAfter(id, s[0]) {
      NotAfterTotal(id, s[0]);
      InsertAscending(id, s[1..]);
      var rest := InsertSorted(id, s[1..]);
      assert ([s[0]] + rest)[1..] == rest;
    } else if s != [] {
      assert ([id] + s)[1..] == s;
    }
  }

  /** The panel lists the actions in ascending order of their ids. */
  lemma {:induction false} SortAscending(s: seq<Id>)
    ensures Ascending(SortIds(s))
  {
    if s == [] {
    } else {
      SortAscending(s[1..]);
      InsertAscending(s[0], SortIds(s[1..]));
    }
  }

  lemma InsertElements(id: Id, s: seq<Id>)
    ensures forall x :: x in InsertSorted(id, s) <==> x in s || x == id
  {
    hide InsertSorted;
    assert forall x :: x in InsertSorted(id, s) <==> x in multiset(InsertSorted(id, s));
  }

  lemma {:induction false} InsertNoDup(id: Id, s: seq<Id>)
    requires NoDup(s) && id !in s
    ensures NoDup(InsertSorted(id, s))
  {
    if s == [] || NotAfter(id, s[0]) {
    } else {
      InsertNoDup(id, s[1..]);
      HeadIsNew(s);
      InsertElements(id, s[1..]);
      ConsNoDup(s[0], InsertSorted(id, s[1..]));
    }
  }

  lemma ConsNoDup(x: Id, s: seq<Id>)
    requires NoDup(s) && x !in s
    ensures NoDup([x] + s)
  {
  }

  lemma HeadIsNew(s: seq<Id>)
    requires NoDup(s) && s != []
    ensures s[0] !in s[1..]
  {
  }

  lemma {:induction false} SortNoDup(s: seq<Id>)
    requires NoDup(s)
    ensures NoDup(SortIds(s))
  {
    if s == [] {
    } else {
      SortNoDup(s[1..]);
      SortSameElements(s[1..]);
      HeadIsNew(s);
      InsertNoDup(s[0], SortIds(s[1..]));
    }
  }

  lemma SortSameElements(s: seq<Id>)
    ensures forall x :: x in SortIds(s) <==> x in s
  {
    assert forall x :: x in SortIds(s) <==> x in multiset(SortIds(s));
  }

  ghost function SortedSearch(order: seq<Id>, states: map<Id, RuntimeState>): Option<Id>
    requires Present(order, states)
  {
    SortSameElements(order);
    FirstError(SortIds(order), states)
  }

  /** The failed node shown in the panel: the first error in sorted order. */
  method FailedNode(order: seq<Id>, states: map<Id, RuntimeState>) returns (node: Option<Id>)
    requires Present(order, states)
    ensures node == SortedSearch(order, states)
  {
    hide SortIds;
    hide HasError;
    SortSameElements(order);
    var sorted := SortIds(order);
    node := None;
    for i := 0 to |sorted|
      invariant node == FirstError(sorted[..i], states)
    {
      FirstErrorNext(sorted, i, states);
      if HasError(states[sorted[i]]) && node.None? {
        node := Some(sorted[i]);
      }
    }
    assert sorted[..|sorted|] == sorted;
  }

  lemma FirstErrorNext(ids: seq<Id>, i: nat, states: map<Id, RuntimeState>)
    requires Present(ids, states) && i < |ids|
    ensures ids[i] in states && Present(ids[..i], states) && Present(ids[..i + 1], states)
    ensures FirstError(ids[..i + 1], states) ==
      if FirstError(ids[..i], states).Some? then FirstError(ids[..i], states)
      else if HasError(states[ids[i]]) then Some(ids[i]) else None
  {
    assert ids[i] in ids;
    FirstErrorSnoc(ids[..i], ids[i], states);
    SplitAround(ids, i);
  }

  lemma {:induction false} FirstErrorSnoc(ids: seq<Id>, id: Id, states: map<Id, RuntimeState>)
    requires Present(ids, states) && id in states
    ensures FirstError(ids + [id], states) ==
      if FirstError(ids, states).Some? then FirstError(ids, states)
      else if HasError(states[id]) then Some(id) else None
  {
    if ids == [] {
    } else {
      assert (ids + [id])[1..] == ids[1..] + [id];
      FirstErrorSnoc(ids[1..], id, states);
    }
  }

  /** An action keeps an error exactly when it was executed without success and its last
      message is not empty. */
  lemma ErrorsAfterRun(g: Graph, h: Handler, id: Id)
    requires g.IsDict() && id in g.actions
    ensures HasError(PlanResult(g, h).states[id]) <==>
            id in Plan(g, h) && !Succeeds(g, h, id) && StateAfter(g, h, id).lastError != Some("")
  {
    if id in Plan(g, h) {
      StateAfterMeaning(g, h, id);
    }
  }

  ghost predicate NothingTolerated(g: Graph) {
    forall id :: id in g.actions ==> !g.actions[id].allowFailure
  }

  ghost predicate ErrorsSpeak(h: Handler) {
    forall id, k :: h(id, k).Failure? ==> h(id, k).message != ""
  }

  lemma ErrorsAreFatal(g: Graph, h: Handler, id: Id)
    requires g.IsDict() && id in g.actions && NothingTolerated(g) && ErrorsSpeak(h)
    ensures HasError(PlanResult(g, h).states[id]) <==> id in Plan(g, h) && Fatal(g, h, id)
  {
    ErrorsAfterRun(g, h, id);
    StateAfterMeaning(g, h, id);
  }

  /** id is the only action with an error and both searches name it. */
  ghost predicate SoleBlame(order: seq<Id>, states: map<Id, RuntimeState>, id: Id)
    requires Present(order, states)
  {
    && id in states && states[id].status == Failed && states[id].lastError.Some?
    && (forall x :: x in order ==> (HasError(states[x]) <==> x == id))
    && GraphFailure(order, states) == Blamed(id, states[id].lastError.value, Failed)
    && SortedSearch(order, states) == Some(id)
  }

  /** When no action tolerates failure and no error message is empty, the searches in graph
      order and in sorted order agree: a failed run has one error, on its FAILED action, which
      both name; a run that did not fail has none. */
  lemma SearchesAgree(g: Graph, h: Handler)
    requires g.Valid() && NothingTolerated(g) && ErrorsSpeak(h)
    ensures PlanResult(g, h).failed ==> exists id :: SoleBlame(g.order, PlanResult(g, h).states, id)
    ensures !PlanResult(g, h).failed ==> GraphFailure(g.order, PlanResult(g, h).states) == Unclassified
    ensures !PlanResult(g, h).failed ==> SortedSearch(g.order, PlanResult(g, h).states) == None
  {
    var plan, states := Plan(g, h), PlanResult(g, h).states;
    forall id | id in g.actions ensures HasError(states[id]) <==> id in plan && Fatal(g, h, id) {
      ErrorsAreFatal(g, h, id);
    }
    SortSameElements(g.order);
    if PlanResult(g, h).failed {
      FatalIsSole(g, h);
    }
  }

  lemma FatalIsSole(g: Graph, h: Handler)
    requires g.Valid() && NothingTolerated(g) && ErrorsSpeak(h) && PlanResult(g, h).failed
    ensures exists id :: SoleBlame(g.order, PlanResult(g, h).states, id)
  {
    var plan, states := Plan(g, h), PlanResult(g, h).states;
    var id := FatalOne(g, h);
    StateAfterMeaning(g, h, id);
    forall x | x in g.order ensures HasError(states[x]) <==> x == id {
      ErrorsAreFatal(g, h, x);
    }
    SoleError(g.order, states, id);
  }

  lemma FatalOne(g: Graph, h: Handler) returns (id: Id)
    requires g.Valid() && PlanResult(g, h).failed
    ensures id in g.actions
    ensures forall x :: x in Plan(g, h) && Fatal(g, h, x) <==> x == id
  {
    var plan := Plan(g, h);
    PlanIsComplete(g, h);
    id := plan[|plan| - 1];
    forall x | x in plan && Fatal(g, h, x) ensures x == id {
      var i :| 0 <= i < |plan| && plan[i] == x;
    }
  }

  lemma SoleError(order: seq<Id>, states: map<Id, RuntimeState>, id: Id)
    requires Present(order, states) && id in order && states[id].status == Failed
    requires forall x :: x in order ==> (HasError(states[x]) <==> x == id)
    ensures SoleBlame(order, states, id)
  {
    hide FirstError;
    hide SortIds;
    FirstErrorSole(order, states, id);
    SortSameElements(order);
    FirstErrorSole(SortIds(order), states, id);
  }

  lemma FirstErrorSole(ids: seq<Id>, states: map<Id, RuntimeState>, id: Id)
    requires Present(ids, states) && id in ids
    requires forall x :: x in ids ==> (HasError(states[x]) <==> x == id)
    ensures FirstError(ids, states) == Some(id)
  {
  }

  lemma FirstErrorIs(ids: seq<Id>, states: map<Id, RuntimeState>, i: nat)
    requires Present(ids, states) && NoDup(ids) && i < |ids|
    ensures FirstError(ids, states) == Some(ids[i]) <==> FirstAt(ids, states, i)
  {
    var first := FirstError(ids, states);
    assert ids[i] in ids;
    if first.Some? {
      var k :| FirstAt(ids, states, k) && ids[k] == first.value;
      if FirstAt(ids, states, i) {
        assert !(i < k) && !(k < i);
      }
    }
  }

  lemma ErrorStatus(g: Graph, h: Handler, id: Id)
    requires g.IsDict() && id in g.actions
    ensures var st := PlanResult(g, h).states[id];
      && (HasError(st) <==> st.status in {Failed, Skipped} && st.lastError != Some(""))
      && (st.status == Failed <==> id in Plan(g, h) && Fatal(g, h, id))
  {
    StateAfterMeaning(g, h, id);
  }

  /** In a listing of all actions, the first error is on the FAILED action exactly when its last
      message is not empty and no action listed before it ended SKIPPED with a message. */
  lemma BlameInListing(g: Graph, h: Handler, ids: seq<Id>, i: nat)
    requires g.Valid() && NoDup(ids) && forall id :: id in ids <==> id in g.actions
    requires i < |ids| && ids[i] in g.actions && PlanResult(g, h).states[ids[i]].status == Failed
    ensures FirstError(ids, PlanResult(g, h).states) == Some(ids[i]) <==> BlamedAt(ids, PlanResult(g, h).states, i)
  {
    var states := PlanResult(g, h).states;
    FirstErrorIs(ids, states, i);
    ErrorStatus(g, h, ids[i]);
    var fatal := FatalOne(g, h);
    forall j | 0 <= j < i ensures ids[j] in ids && (HasError(states[ids[j]]) <==>
      states[ids[j]].status == Skipped && states[ids[j]].lastError != Some(""))
    {
      ErrorStatus(g, h, ids[j]);
    }
  }

  ghost predicate BlamedAt(ids: seq<Id>, states: map<Id, RuntimeState>, i: nat)
    requires i < |ids| && Present(ids, states)
  {
    && ids[i] in ids && states[ids[i]].lastError != Some("")
    && forall j :: 0 <= j < i ==> ids[j] in ids && (states[ids[j]].status != Skipped || states[ids[j]].lastError == Some(""))
  }

  /** With tolerated failures the blame can go elsewhere. The command line blames the FAILED
      action exactly when its last message is not empty and no action before it in the graph
      ended SKIPPED with a message. */
  lemma BlameIsExact(g: Graph, h: Handler, i: nat)
    requires g.Valid() && i < |g.order| && PlanResult(g, h).states[g.order[i]].status == Failed
    ensures var states := PlanResult(g, h).states; var st := states[g.order[i]];
      && st.lastError.Some?
      && (GraphFailure(g.order, states) == Blamed(g.order[i], st.lastError.value, Failed) <==> BlamedAt(g.order, states, i))
  {
    assert g.order[i] in g.order;
    BlameInListing(g, h, g.order, i);
    ErrorStatus(g, h, g.order[i]);
    StateAfterMeaning(g, h, g.order[i]);
  }

  /** The panel names the FAILED action exactly when its message is not empty and no action with a
      smaller id ended SKIPPED with a message. */
  lemma PanelBlameIsExact(g: Graph, h: Handler, i: nat)
    requires g.Valid() && i < |SortIds(g.order)| && SortIds(g.order)[i] in g.actions
    requires PlanResult(g, h).states[SortIds(g.order)[i]].status == Failed
    ensures Ascending(SortIds(g.order)) && Present(SortIds(g.order), PlanResult(g, h).states)
    ensures SortedSearch(g.order, PlanResult(g, h).states) == Some(SortIds(g.order)[i]) <==>
            BlamedAt(SortIds(g.order), PlanResult(g, h).states, i)
  {
    SortAscending(g.order);
    SortSameElements(g.order);
    SortNoDup(g.order);
    BlameInListing(g, h, SortIds(g.order), i);
  }

  /** Two independent actions that both fail; only the failure of the first is tolerated. */
  function TwoActions(): Graph {
    var once := RetryPolicy(NoRetry, 1);
    Graph(["a", "b"], map["a" := ActionDescriptor("a", [], true, once),
                          "b" := ActionDescriptor("b", [], false, once)])
  }

  function AlwaysBoom(): Handler {
    (id, k) => Failure("boom", None)
  }

  ghost predicate Independent(g: Graph) {
    forall id :: id in g.actions ==> g.actions[id].deps == []
  }

  lemma IndependentIsAcyclic(g: Graph)
    requires Independent(g)
    ensures g.DepsKnown() && forall a, b :: !g.DependsOn(a, b)
  {
    forall a, b ensures !g.DependsOn(a, b) {
      if g.DependsOn(a, b) {
        var c := g.FirstEdge(a, b);
      }
    }
  }

  /** Independent actions are previewed in graph order. */
  lemma IndependentOrder(g: Graph)
    requires g.IsDict() && Independent(g)
    ensures PreviewOrder(g) == g.order
  {
    FilterAll(g.order, NextTest(g, []));
    WaveKeepsListed(g, []);
    assert [] + Wave(g, []) == g.order;
    AllListed(g, g.order);
  }

  lemma IndependentPlan(g: Graph, h: Handler)
    requires g.IsDict() && Independent(g)
    ensures Plan(g, h) == UpToFatal(g, h, g.order)
  {
    IndependentOrder(g);
    IndependentIsAcyclic(g);
    FilterAll(g.order, RunnableTest(g, h));
  }

  lemma TwoActionsValid()
    ensures TwoActions().Valid() && Independent(TwoActions())
  {
    var g := TwoActions();
    assert g.order == ["a", "b"] && "a" != "b";
    IndependentIsAcyclic(g);
  }

  lemma TwoActionsPlan()
    ensures TwoActions().Valid() && Plan(TwoActions(), AlwaysBoom()) == ["a", "b"]
  {
    var g, h := TwoActions(), AlwaysBoom();
    TwoActionsValid();
    IndependentPlan(g, h);
    CutAfterBoth("a", "b", FatalTest(g, h));
  }

  lemma CutAfterBoth<T(!new)>(x: T, y: T, p: T -> bool)
    requires !p(x) && p(y)
    ensures CutAfter([x, y], p) == [x, y]
  {
    CutAfterHit([x], y, [], p);
    assert [x] + [y] + [] == [x, y] && [x] + [y] == [x, y];
  }

  /** The tolerated failure of one action hides the fatal failure of the next. */
  lemma ToleratedFailureIsBlamed()
    ensures TwoActions().Valid() && ErrorsSpeak(AlwaysBoom())
    ensures var states := PlanResult(TwoActions(), AlwaysBoom()).states;
      && states["b"].status == Failed
      && GraphFailure(TwoActions().order, states) == Blamed("a", "boom", Skipped)
  {
    var g, h := TwoActions(), AlwaysBoom();
    TwoActionsPlan();
    TwoActionsEnd(g, h);
    SecondIsHidden(PlanResult(g, h).states);
  }

  lemma TwoActionsEnd(g: Graph, h: Handler)
    requires g == TwoActions() && h == AlwaysBoom() && g.IsDict() && Plan(g, h) == ["a", "b"]
    ensures var states := PlanResult(g, h).states;
      && "a" in states && states["a"].status == Skipped && states["a"].lastError == Some("boom")
      && "b" in states && states["b"].status == Failed
  {
    hide Plan;
    StateAfterMeaning(g, h, "a");
    StateAfterMeaning(g, h, "b");
    assert "a" in Plan(g, h) && "b" in Plan(g, h);
  }

  lemma SecondIsHidden(states: map<Id, RuntimeState>)
    requires "a" in states && states["a"].status == Skipped && states["a"].lastError == Some("boom") && "b" in states
    ensures Present(["a", "b"], states) && GraphFailure(["a", "b"], states) == Blamed("a", "boom", Skipped)
  {
  }

  /** The counters of the progress summary. */
  ghost function Count(statuses: seq<ActionStatus>, s: ActionStatus): nat {
    if statuses == [] then 0
    else Count(statuses[..|statuses| - 1], s) + if statuses[|statuses| - 1] == s then 1 else 0
  }

  const ALL_STATUSES: set<ActionStatus> :=
    {Pending, Ready, Running, Succeeded, Failed, Skipped, Blocked, Cancelled}

  lemma EveryStatus(s: ActionStatus)
    ensures s in ALL_STATUSES
  {
    assert s == Pending || s == Ready || s == Running || s == Succeeded
        || s == Failed || s == Skipped || s == Blocked || s == Cancelled;
  }

  method ProgressSummary(statuses: seq<ActionStatus>) returns (total: nat, counts: map<ActionStatus, nat>)
    ensures total == |statuses|
    ensures counts.Keys == ALL_STATUSES && forall s :: s in counts ==> counts[s] == Count(statuses, s)
    ensures forall s :: s in counts ==> counts[s] == multiset(statuses)[s]
  {
    forall s { CountIsMultiplicity(statuses, s); }
    total := |statuses|;
    counts := NO_COUNTS;
    CountNothing();
    forall s { EveryStatus(s); }
    for i := 0 to |statuses|
      invariant forall s :: s in counts && counts[s] == Count(statuses[..i], s)
    {
      CountNext(statuses, i);
      counts := counts[statuses[i] := counts[statuses[i]] + 1];
    }
    assert statuses[..|statuses|] == statuses;
  }

  const NO_COUNTS: map<ActionStatus, nat> :=
    map[Pending := 0, Ready := 0, Running := 0, Succeeded := 0, Failed := 0, Blocked := 0, Skipped := 0, Cancelled := 0]

  lemma CountNothing()
    ensures NO_COUNTS.Keys == ALL_STATUSES && forall s :: s in NO_COUNTS ==> NO_COUNTS[s] == 0
  {
  }

  lemma CountNext(statuses: seq<ActionStatus>, i: nat)
    requires i < |statuses|
    ensures forall s :: Count(statuses[..i + 1], s) == Count(statuses[..i], s) + if statuses[i] == s then 1 else 0
  {
    assert statuses[..i + 1][..i] == statuses[..i];
  }

  lemma {:induction false} CountIsMultiplicity(statuses: seq<ActionStatus>, s: ActionStatus)
    ensures Count(statuses, s) == multiset(statuses)[s]
  {
    if statuses == [] {
    } else {
      var front := statuses[..|statuses| - 1];
      CountIsMultiplicity(front, s);
      assert statuses == front + [statuses[|statuses| - 1]];
    }
  }

  /** The eight counters add up to the number of actions. */
  lemma {:induction false} CountersSum(statuses: seq<ActionStatus>)
    ensures Count(statuses, Pending) + Count(statuses, Ready) + Count(statuses, Running)
          + Count(statuses, Succeeded) + Count(statuses, Failed) + Count(statuses, Blocked)
          + Count(statuses, Skipped) + Count(statuses, Cancelled) == |statuses|
  {
    if statuses == [] {
    } else {
      CountersSum(statuses[..|statuses| - 1]);
    }
  }

  lemma {:induction false} CountZero(statuses: seq<ActionStatus>, s: ActionStatus)
    ensures Count(statuses, s) == 0 <==> s !in statuses
  {
    if statuses == [] {
    } else {
      var front := statuses[..|statuses| - 1];
      CountZero(front, s);
      assert statuses == front + [statuses[|statuses| - 1]];
    }
  }

  lemma {:induction false} CountAtMostOne(statuses: seq<ActionStatus>, s: ActionStatus)
    requires forall i, j :: 0 <= i < j < |statuses| ==> !(statuses[i] == s && statuses[j] == s)
    ensures Count(statuses, s) <= 1
  {
    if statuses == [] {
    } else {
      var front := statuses[..|statuses| - 1];
      CountAtMostOne(front, s);
      CountZero(front, s);
    }
  }

  /** The statuses of the listed actions. */
  ghost function StatusesOf(ids: seq<Id>, states: map<Id, RuntimeState>): (r: seq<ActionStatus>)
    requires Present(ids, states)
    ensures |r| == |ids| && forall i :: 0 <= i < |r| ==> r[i] == states[ids[i]].status
  {
    seq(|ids|, i requires 0 <= i < |ids| => assert ids[i] in ids; states[ids[i]].status)
  }

  /** The progress reported for a run, in whatever order the actions are listed. */
  lemma ProgressOfRun(g: Graph, h: Handler, ids: seq<Id>)
    requires g.Valid() && NoDup(ids) && forall id :: id in ids <==> id in g.actions
    ensures var r := PlanResult(g, h); var st := StatusesOf(ids, r.states);
      && Count(st, Pending) + Count(st, Succeeded) + Count(st, Skipped) + Count(st, Failed) == |ids|
      && Count(st, Ready) == Count(st, Running) == Count(st, Blocked) == Count(st, Cancelled) == 0
      && Count(st, Failed) == (if r.failed then 1 else 0)
      && (r.completed <==> Count(st, Pending) == 0 && Count(st, Failed) == 0)
  {
    hide Count;
    var r := PlanResult(g, h);
    var st := StatusesOf(ids, r.states);
    CountersSum(st);
    CompletedMeansSettled(g, h, ids);
    CountZero(st, Ready);
    CountZero(st, Running);
    CountZero(st, Blocked);
    CountZero(st, Cancelled);
    CountZero(st, Pending);
    CountZero(st, Failed);
    FailedOnce(g, h, ids);
    CountAtMostOne(st, Failed);
  }

  lemma FailedOnce(g: Graph, h: Handler, ids: seq<Id>)
    requires g.Valid() && NoDup(ids) && forall id :: id in ids <==> id in g.actions
    ensures var st := StatusesOf(ids, PlanResult(g, h).states);
      && (forall i, j :: 0 <= i < j < |st| ==> !(st[i] == Failed && st[j] == Failed))
      && (PlanResult(g, h).failed <==> Failed in st)
  {
    FinalStatuses(g, h);
    OnceListed(ids, PlanResult(g, h).states, Failed);
  }

  /** A status held by at most one action is listed at most once. */
  lemma OnceListed(ids: seq<Id>, states: map<Id, RuntimeState>, s: ActionStatus)
    requires NoDup(ids) && forall id :: id in ids <==> id in states
    requires forall a, b :: a in states && b in states && states[a].status == s && states[b].status == s ==> a == b
    ensures var st := StatusesOf(ids, states);
      && (forall i, j :: 0 <= i < j < |st| ==> !(st[i] == s && st[j] == s))
      && (s in st <==> exists id :: id in states && states[id].status == s)
  {
    var st := StatusesOf(ids, states);
    forall id | id in states && states[id].status == s ensures s in st {
      var i :| 0 <= i < |ids| && ids[i] == id;
      assert st[i] == s;
    }
    if s in st {
      var i :| 0 <= i < |st| && st[i] == s;
      assert ids[i] in states;
    }
  }

  lemma CompletedMeansSettled(g: Graph, h: Handler, ids: seq<Id>)
    requires g.Valid() && NoDup(ids) && forall id :: id in ids <==> id in g.actions
    ensures var r := PlanResult(g, h); var st := StatusesOf(ids, r.states);
      && (forall s :: s in st ==> s in {Pending, Succeeded, Skipped, Failed})
      && (r.completed <==> Pending !in st && Failed !in st)
  {
    FinalStatuses(g, h);
    StatusesListed(ids, PlanResult(g, h).states);
  }

  /** A status is listed exactly when some action has it. */
  lemma StatusesListed(ids: seq<Id>, states: map<Id, RuntimeState>)
    requires forall id :: id in ids <==> id in states
    ensures forall s :: s in StatusesOf(ids, states) <==> exists id :: id in states && states[id].status == s
  {
    var st := StatusesOf(ids, states);
    forall id | id in states ensures states[id].status in st {
      var i :| 0 <= i < |ids| && ids[i] == id;
      assert st[i] in st;
    }
    forall s | s in st ensures exists id :: id in states && states[id].status == s {
      var i :| 0 <= i < |st| && st[i] == s;
      assert ids[i] in states;
    }
  }
}
