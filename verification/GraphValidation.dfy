/** The graph validator: key and dependency checks, then a depth-first cycle search
    (_validate_graph in hermes_control_core/actions.py). */
module GraphValidation {
  import opened Collections
  import opened ActionGraph

  datatype Verdict =
    | Accepted
    | KeyMismatch(key: Id)
    | UnknownDependency(action: Id, dep: Id)
    | CycleAt(node: Id)

  /** The two colour sets shared by the recursive search, with the recursion stack and the
      finishing order as ghost history. */
  class CycleSearch {
    const graph: Graph
    var visiting: set<Id>
    var visited: set<Id>
    ghost var stack: seq<Id>
    ghost var done: seq<Id>

    ghost predicate Valid()
      reads this
    {
      && graph.IsDict() && graph.DepsKnown()
      && visiting == Elements(stack) && NoDup(stack)
      && visited == Elements(done) && NoDup(done)
      && visiting !! visited
      && visiting <= graph.actions.Keys && visited <= graph.actions.Keys
      && (stack == [] || graph.IsPath(stack))
      && graph.DepsFirst(done)
    }

    constructor (graph: Graph)
      requires graph.IsDict() && graph.DepsKnown()
      ensures Valid() && stack == [] && done == [] && this.graph == graph
    {
      this.graph := graph;
      visiting, visited := {}, {};
      stack, done := [], [];
    }

    /** Visits node. Without a cycle the stack is as before and node is finished; otherwise
        loop is a closed dependency path through the node reported. */
    method Dfs(node: Id) returns (cycle: Option<Id>, ghost loop: seq<Id>)
      requires Valid() && node in graph.actions
      requires stack == [] || graph.Edge(stack[|stack| - 1], node)
      modifies this
      ensures cycle.None? ==> Valid() && stack == old(stack) && node in done && old(done) <= done
      ensures cycle.Some? ==> graph.PathBetween(loop, cycle.value, cycle.value)
      decreases graph.actions.Keys - visiting
    {
      loop := [];
      if node in visited {
        return None, loop;
      }
      if node in visiting {
        loop := ClosedStack(graph, stack, node);
        return Some(node), loop;
      }
      visiting := visiting + {node};
      ghost var below := stack;
      stack := stack + [node];
      PushKeepsPath(graph, below, node);
      var deps := graph.actions[node].deps;
      for i := 0 to |deps|
        invariant Valid() && stack == below + [node] && old(done) <= done
        invariant forall j :: 0 <= j < i ==> deps[j] in done
      {
        assert graph.Edge(node, deps[i]);
        cycle, loop := Dfs(deps[i]);
        if cycle.Some? {
          return;
        }
      }
      visiting := visiting - {node};
      visited := visited + {node};
      stack := below;
      FinishKeepsOrder(graph, done, node);
      assert node !in done;
      done := done + [node];
      cycle := None;
    }
  }

  lemma PushKeepsPath(g: Graph, stack: seq<Id>, node: Id)
    requires stack == [] || (g.IsPath(stack) && g.Edge(stack[|stack| - 1], node))
    ensures g.IsPath(stack + [node])
  {
  }

  /** A node met again while on the stack closes a cycle. */
  lemma ClosedStack(g: Graph, stack: seq<Id>, node: Id) returns (loop: seq<Id>)
    requires g.IsPath(stack) && node in stack && g.Edge(stack[|stack| - 1], node)
    ensures g.PathBetween(loop, node, node)
  {
    var i :| 0 <= i < |stack| && stack[i] == node;
    loop := stack[i..] + [node];
    forall k | 0 <= k < |loop| - 1 ensures g.Edge(loop[k], loop[k + 1]) {
      if k + 1 < |stack| - i {
        assert loop[k] == stack[i + k] && loop[k + 1] == stack[i + k + 1];
      }
    }
  }

  lemma FinishKeepsOrder(g: Graph, done: seq<Id>, node: Id)
    requires g.DepsFirst(done) && node in g.actions
    requires forall dep :: dep in g.actions[node].deps ==> dep in done
    ensures g.DepsFirst(done + [node])
  {
    var all := done + [node];
    forall i, dep | 0 <= i < |all| && g.Edge(all[i], dep) ensures dep in all[..i] {
      if i < |done| {
        assert all[..i] == done[..i];
      } else {
        assert all[..i] == done;
      }
    }
  }

  ghost predicate FirstMismatch(g: Graph, i: nat)
    requires g.IsDict()
  {
    && i < |g.order| && g.actions[g.order[i]].actionId != g.order[i]
    && forall j :: 0 <= j < i ==> g.actions[g.order[j]].actionId == g.order[j]
  }

  /** The validator accepts exactly the graphs whose keys match their descriptors, whose
      dependencies are all actions of the graph, and in which nothing depends on itself;
      each rejection names a real defect, in the order the checks are made. */
  method ValidateGraph(g: Graph) returns (v: Verdict)
    requires g.IsDict()
    ensures v.Accepted? <==> g.KeysMatch() && g.DepsKnown() && g.Acyclic()
    ensures v.KeyMismatch? ==> exists i: nat :: FirstMismatch(g, i) && v.key == g.order[i]
    ensures v.UnknownDependency? ==>
              g.KeysMatch() && v.action in g.actions && v.dep in g.actions[v.action].deps && v.dep !in g.actions
    ensures v.CycleAt? ==> g.KeysMatch() && g.DepsKnown() && v.node in g.actions && g.DependsOn(v.node, v.node)
  {
    for i := 0 to |g.order|
      invariant forall j :: 0 <= j < i ==> g.actions[g.order[j]].actionId == g.order[j]
    {
      var key := g.order[i];
      if g.actions[key].actionId != key {
        assert FirstMismatch(g, i);
        return KeyMismatch(key);
      }
    }
    assert g.KeysMatch();
    for i := 0 to |g.order|
      invariant forall j, dep :: 0 <= j < i && dep in g.actions[g.order[j]].deps ==> dep in g.actions
    {
      var descriptor := g.actions[g.order[i]];
      for k := 0 to |descriptor.deps|
        invariant forall m :: 0 <= m < k ==> descriptor.deps[m] in g.actions
      {
        if descriptor.deps[k] !in g.actions {
          return UnknownDependency(descriptor.actionId, descriptor.deps[k]);
        }
      }
    }
    assert g.DepsKnown();
    var search := new CycleSearch(g);
    for i := 0 to |g.order|
      invariant search.Valid() && search.stack == [] && search.graph == g && fresh(search)
      invariant forall j :: 0 <= j < i ==> g.order[j] in search.done
    {
      var cycle, loop := search.Dfs(g.order[i]);
      if cycle.Some? {
        assert g.DependsOn(cycle.value, cycle.value);
        assert g.Edge(loop[0], loop[1]);
        return CycleAt(cycle.value);
      }
    }
    g.OrderedMeansAcyclic(search.done);
    v := Accepted;
  }
}
