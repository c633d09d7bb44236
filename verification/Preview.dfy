/** The order shown to the operator before a run: repeated waves of actions whose
    dependencies are all listed already (_topological_action_order in
    hermes_vps_app/status_presentation.py). */
module Preview {
  import opened Collections
  import opened ActionGraph

  /** id is not listed yet and everything it depends on is. */
  ghost predicate InNextWave(g: Graph, done: seq<Id>, id: Id) {
    && id in g.actions && id !in done
    && forall dep :: dep in g.actions[id].deps ==> dep in done
  }

  ghost function NextTest(g: Graph, done: seq<Id>): Id -> bool {
    id => InNextWave(g, done, id)
  }

  ghost function Wave(g: Graph, done: seq<Id>): (r: seq<Id>) {
    Filter(g.order, NextTest(g, done))
  }

  /** done is what some number of waves has listed. */
  ghost predicate Listed(g: Graph, done: seq<Id>) {
    && NoDup(done)
    && (forall id :: id in done ==> id in g.actions)
    && g.DepsFirst(done)
  }

  lemma WaveKeepsListed(g: Graph, done: seq<Id>)
    requires g.IsDict() && Listed(g, done)
    ensures Listed(g, done + Wave(g, done)) && |done + Wave(g, done)| <= |g.order|
  {
    var wave := Wave(g, done);
    FilterNoDup(g.order, NextTest(g, done));
    NoDupConcat(done, wave);
    var all := done + wave;
    forall i, dep | 0 <= i < |all| && g.Edge(all[i], dep) ensures dep in all[..i] {
      if i < |done| {
        assert all[..i] == done[..i];
      } else {
        assert wave[i - |done|] in wave;
        assert dep in done;
        assert done <= all[..i];
      }
    }
    NoDupBounded(all, Elements(g.order));
    NoDupCardinality(g.order);
  }

  /** The waves from done onwards. */
  ghost function WavesFrom(g: Graph, done: seq<Id>): (r: seq<Id>)
    requires g.IsDict() && Listed(g, done)
    ensures done <= r && Listed(g, r) && Wave(g, r) == []
    decreases |g.order| - |done|
  {
    var wave := Wave(g, done);
    if wave == [] then done
    else
      WaveKeepsListed(g, done);
      WavesFrom(g, done + wave)
  }

  /** The order the preview prints. */
  ghost function PreviewOrder(g: Graph): (r: seq<Id>)
    requires g.IsDict()
  {
    WavesFrom(g, [])
  }

  /** When no wave is left, an unlisted action means a missing dependency or a cycle. */
  lemma StuckMeansDefect(g: Graph, done: seq<Id>, left: Id)
    requires g.IsDict() && Listed(g, done) && Wave(g, done) == []
    requires left in g.actions && left !in done
    ensures !(g.DepsKnown() && g.Acyclic())
  {
    if g.DepsKnown() {
      var rest := g.actions.Keys - Elements(done);
      forall id | id in rest ensures g.DependsInto(id, rest) {
        assert id !in Wave(g, done);
        assert id in g.order;
        var dep :| dep in g.actions[id].deps && dep !in done;
        assert g.Edge(id, dep) && dep in rest;
      }
      assert left in rest;
      g.NoMinimumMeansCycle(rest);
    }
  }

  /** For a graph the validator accepts the preview lists every action once, dependencies first. */
  lemma PreviewIsTopological(g: Graph)
    requires g.IsDict()
    ensures g.TopologicalOrder(PreviewOrder(g)) <==> g.DepsKnown() && g.Acyclic()
  {
    var order := PreviewOrder(g);
    if g.DepsKnown() && g.Acyclic() {
      forall id | id in g.actions ensures id in order {
        if id !in order {
          StuckMeansDefect(g, order, id);
        }
      }
    }
    if g.TopologicalOrder(order) {
      TopologicalMeansSound(g, order);
    }
  }

  lemma TopologicalMeansSound(g: Graph, order: seq<Id>)
    requires g.TopologicalOrder(order)
    ensures g.DepsKnown() && g.Acyclic()
  {
    g.OrderedMeansAcyclic(order);
    forall id, dep | id in g.actions && dep in g.actions[id].deps ensures dep in g.actions {
      assert id in order;
      var i :| 0 <= i < |order| && order[i] == id;
      assert g.Edge(order[i], dep);
      assert dep in order[..i];
      assert dep in order;
    }
  }

  /** The preview loop: an order is printed exactly when all dependencies are known and
      nothing depends on itself, and it is PreviewOrder. */
  method TopologicalActionOrder(g: Graph) returns (r: Option<seq<Id>>)
    requires g.IsDict()
    ensures r.Some? <==> g.DepsKnown() && g.Acyclic()
    ensures r.Some? ==> r.value == PreviewOrder(g) && g.TopologicalOrder(r.value)
  {
    var ordered: seq<Id> := [];
    var remaining := g.actions.Keys;
    while remaining != {}
      invariant Listed(g, ordered) && WavesFrom(g, ordered) == PreviewOrder(g)
      invariant remaining == g.actions.Keys - Elements(ordered)
      decreases |g.order| - |ordered|
    {
      var ready := ReadyIds(g, ordered, remaining);
      if ready == [] {
        var left :| left in remaining;
        StuckMeansDefect(g, ordered, left);
        return None;
      }
      WaveKeepsListed(g, ordered);
      ordered, remaining := MoveReady(g, ordered, remaining, ready);
    }
    assert forall id :: id in g.actions ==> id in ordered || id in remaining;
    AllListed(g, ordered);
    r := Some(ordered);
  }

  lemma AllListed(g: Graph, ordered: seq<Id>)
    requires g.IsDict() && Listed(g, ordered)
    requires forall id :: id in g.actions ==> id in ordered
    ensures WavesFrom(g, ordered) == ordered && g.TopologicalOrder(ordered)
    ensures g.DepsKnown() && g.Acyclic()
  {
    TopologicalMeansSound(g, ordered);
    FilterNone(g.order, NextTest(g, ordered));
  }

  method MoveReady(g: Graph, before: seq<Id>, left: set<Id>, ready: seq<Id>)
    returns (ordered: seq<Id>, remaining: set<Id>)
    requires left == g.actions.Keys - Elements(before)
    ensures ordered == before + ready && remaining == g.actions.Keys - Elements(ordered)
  {
    ordered, remaining := before, left;
    for i := 0 to |ready|
      invariant ordered == before + ready[..i]
      invariant remaining == g.actions.Keys - Elements(ordered)
    {
      ordered := ordered + [ready[i]];
      remaining := remaining - {ready[i]};
    }
  }

  method ReadyIds(g: Graph, ordered: seq<Id>, remaining: set<Id>) returns (ready: seq<Id>)
    requires g.IsDict() && remaining == g.actions.Keys - Elements(ordered)
    ensures ready == Wave(g, ordered)
  {
    ready := [];
    for i := 0 to |g.order|
      invariant ready == Filter(g.order[..i], NextTest(g, ordered))
    {
      var id := g.order[i];
      FilterNext(g.order, i, NextTest(g, ordered));
      var depsListed := AllIn(g.actions[id].deps, ordered);
      if id in remaining && depsListed {
        ready := ready + [id];
      }
    }
    assert g.order[..|g.order|] == g.order;
  }

  method AllIn(deps: seq<Id>, ordered: seq<Id>) returns (all: bool)
    ensures all <==> forall dep :: dep in deps ==> dep in ordered
  {
    for k := 0 to |deps|
      invariant forall m :: 0 <= m < k ==> deps[m] in ordered
    {
      if deps[k] !in ordered {
        return false;
      }
    }
    all := true;
  }
}
