/** What holds of every run of every valid graph, whatever the handler does. */
module RunProperties {
  import opened Collections
  import opened ActionGraph
  import opened Preview
  import opened RunSpec
  import opened RunProgress

  lemma {:induction false} RunnableKeepsDepsFirst(g: Graph, h: Handler, s: seq<Id>)
    requires g.DepsFirst(s)
    ensures g.DepsFirst(RunnableOnly(g, h, s))
  {
    if s == [] {
    } else {
      var front, x := s[..|s| - 1], s[|s| - 1];
      assert g.DepsFirst(front) by {
        forall i, dep | 0 <= i < |front| && g.Edge(front[i], dep) ensures dep in front[..i] {
          assert front[..i] == s[..i] && g.Edge(s[i], dep);
        }
      }
      RunnableKeepsDepsFirst(g, h, front);
      if Runnable(g, h, x) {
        var kept := RunnableOnly(g, h, front);
        forall i, dep | 0 <= i < |kept + [x]| && g.Edge((kept + [x])[i], dep) ensures dep in (kept + [x])[..i] {
          if i < |kept| {
            assert (kept + [x])[..i] == kept[..i];
          } else {
            assert g.Edge(s[|s| - 1], dep);
            RunnableStep(g, h, x);
            assert (kept + [x])[..i] == kept;
          }
        }
      }
    }
  }

  lemma PrefixKeepsDepsFirst(g: Graph, s: seq<Id>, prefix: seq<Id>)
    requires g.DepsFirst(s) && prefix <= s
    ensures g.DepsFirst(prefix)
  {
    forall i, dep | 0 <= i < |prefix| && g.Edge(prefix[i], dep) ensures dep in prefix[..i] {
      assert prefix[..i] == s[..i] && g.Edge(s[i], dep);
    }
  }

  /** The actions started: each once, known, runnable, after all their dependencies. */
  lemma PlanIsOrdered(g: Graph, h: Handler)
    requires g.Valid()
    ensures var plan := Plan(g, h);
      && NoDup(plan) && g.DepsFirst(plan)
      && (forall id :: id in plan ==> id in g.actions && Runnable(g, h, id))
  {
    var all := RunnableOnly(g, h, PreviewOrder(g));
    PreviewIsTopological(g);
    FilterNoDup(PreviewOrder(g), RunnableTest(g, h));
    RunnableKeepsDepsFirst(g, h, PreviewOrder(g));
    PrefixKeepsDepsFirst(g, all, Plan(g, h));
    NoDupPrefix(Plan(g, h), all);
    PrefixElements(Plan(g, h), all);
  }

  lemma PrefixElements<T(!new)>(prefix: seq<T>, s: seq<T>)
    requires prefix <= s
    ensures forall x :: x in prefix ==> x in s
  {
    forall x | x in prefix ensures x in s {
      var i :| 0 <= i < |prefix| && prefix[i] == x;
      assert s[i] == x;
    }
  }

  /** Only the last action started can be fatal; without a fatal one, exactly the runnable
      actions have been started. */
  lemma PlanIsComplete(g: Graph, h: Handler)
    requires g.Valid()
    ensures var plan := Plan(g, h);
      && (forall i :: 0 <= i < |plan| - 1 ==> !Fatal(g, h, plan[i]))
      && (NoneFatal(g, h, plan) ==> forall id :: id in g.actions ==> (id in plan <==> Runnable(g, h, id)))
  {
    var all, plan := RunnableOnly(g, h, PreviewOrder(g)), Plan(g, h);
    PreviewIsTopological(g);
    CutAfterMeaning(all, FatalTest(g, h));
    if plan != all {
      assert plan[|plan| - 1] in plan;
    }
  }

  /** When every action succeeds, the run starts exactly the previewed order and completes
      with every action SUCCEEDED. */
  lemma AllSucceed(g: Graph, h: Handler)
    requires g.Valid() && forall id :: id in g.actions ==> Succeeds(g, h, id)
    ensures Plan(g, h) == PreviewOrder(g)
    ensures PlanResult(g, h).completed && !PlanResult(g, h).failed
    ensures forall id :: id in g.actions ==> PlanResult(g, h).states[id].status == Succeeded
  {
    var order := PreviewOrder(g);
    PreviewIsTopological(g);
    forall id | id in order ensures Runnable(g, h, id) {
      forall dep | g.DependsOn(id, dep) ensures Succeeds(g, h, dep) {
        ReachedIsKnown(g, id, dep);
      }
    }
    FilterAll(order, RunnableTest(g, h));
    CutAfterNone(order, FatalTest(g, h));
    SnapshotStatuses(g, h, order);
  }

  lemma ReachedIsKnown(g: Graph, a: Id, b: Id)
    requires g.DepsKnown() && g.DependsOn(a, b)
    ensures b in g.actions
  {
    var p :| g.PathBetween(p, a, b);
    assert g.Edge(p[|p| - 2], p[|p| - 1]);
  }

  /** An action that is not runnable depends on a runnable one that does not succeed. */
  lemma {:induction false} FirstObstacle(g: Graph, h: Handler, order: seq<Id>, i: nat) returns (dep: Id)
    requires g.DepsKnown() && g.DepsFirst(order)
    requires i < |order| && order[i] in g.actions && !Runnable(g, h, order[i])
    ensures g.DependsOn(order[i], dep) && dep in g.actions && Runnable(g, h, dep) && !Succeeds(g, h, dep)
    decreases i
  {
    var id := order[i];
    RunnableStep(g, h, id);
    dep :| g.Edge(id, dep) && !(Succeeds(g, h, dep) && Runnable(g, h, dep));
    if Runnable(g, h, dep) {
      g.DirectEdge(id, dep);
    } else {
      assert g.Edge(order[i], dep);
      assert dep in order[..i];
      var j :| 0 <= j < i && order[j] == dep;
      var far := FirstObstacle(g, h, order, j);
      g.EdgeThenPath(id, dep, far);
      dep := far;
    }
  }

  /** In a run without a fatal failure an action stays PENDING exactly when something it
      depends on, directly or not, ended SKIPPED. */
  lemma PendingIffSkippedDependency(g: Graph, h: Handler, id: Id)
    requires g.Valid() && !PlanResult(g, h).failed && id in g.actions
    ensures PlanResult(g, h).states[id].status == Pending <==>
            exists dep :: g.DependsOn(id, dep) && dep in g.actions && PlanResult(g, h).states[dep].status == Skipped
  {
    var plan, states := Plan(g, h), PlanResult(g, h).states;
    PlanIsComplete(g, h);
    SnapshotStatuses(g, h, plan);
    if states[id].status == Pending {
      PreviewIsTopological(g);
      var order := PreviewOrder(g);
      assert id in order;
      var i :| 0 <= i < |order| && order[i] == id;
      var dep := FirstObstacle(g, h, order, i);
      assert dep in plan && states[dep].status == Skipped;
    }
  }

  /** A run ends with every action PENDING, SUCCEEDED, SKIPPED or FAILED, and it reports a
      failure exactly when one action is FAILED; then that is the only one. */
  lemma FinalStatuses(g: Graph, h: Handler)
    requires g.Valid()
    ensures var r := PlanResult(g, h);
      && (forall id :: id in r.states ==> r.states[id].status in {Pending, Succeeded, Skipped, Failed})
      && (r.failed <==> exists id :: id in r.states && r.states[id].status == Failed)
      && (forall a, b :: a in r.states && b in r.states && r.states[a].status == Failed && r.states[b].status == Failed ==> a == b)
      && (r.completed ==> !r.failed)
  {
    PlanIsComplete(g, h);
    var plan, r := Plan(g, h), PlanResult(g, h);
    forall id | id in g.actions ensures
      && r.states[id].status in {Pending, Succeeded, Skipped, Failed}
      && (r.states[id].status == Failed <==> id in plan && Fatal(g, h, id))
      && (r.states[id].status == Failed ==> plan != [] && id == plan[|plan| - 1])
    {
      StateAfterMeaning(g, h, id);
    }
  }
}
