/** Action descriptors, graphs and dependency paths (hermes_control_core/actions.py). */
module ActionGraph {
  import opened Collections

  type Id = string

  datatype RetryPolicyKind = NoRetry | Fixed | Backoff

  datatype RetryPolicy = RetryPolicy(kind: RetryPolicyKind, maxAttempts: int)

  datatype ActionDescriptor =
    ActionDescriptor(actionId: Id, deps: seq<Id>, allowFailure: bool, retryPolicy: RetryPolicy)

  /** The actions of a graph: a dictionary together with its insertion order. */
  datatype Graph = Graph(order: seq<Id>, actions: map<Id, ActionDescriptor>) {

    ghost predicate IsDict() {
      && NoDup(order)
      && (forall id :: id in order <==> id in actions)
    }

    ghost predicate KeysMatch() {
      forall id :: id in actions ==> actions[id].actionId == id
    }

    ghost predicate DepsKnown() {
      forall id, dep :: id in actions && dep in actions[id].deps ==> dep in actions
    }

    ghost predicate Edge(a: Id, b: Id) {
      a in actions && b in actions[a].deps
    }

    ghost predicate IsPath(p: seq<Id>) {
      && |p| > 0
      && forall i, j :: 0 <= i < j < |p| && j == i + 1 ==> Edge(p[i], p[j])
    }

    /** b is reached from a along one or more dependency edges. */
    ghost predicate DependsOn(a: Id, b: Id) {
      exists p :: PathBetween(p, a, b)
    }

    ghost predicate PathBetween(p: seq<Id>, a: Id, b: Id) {
      IsPath(p) && |p| >= 2 && p[0] == a && p[|p| - 1] == b
    }

    ghost predicate Acyclic() {
      forall a :: a in actions ==> !DependsOn(a, a)
    }

    /** What the engine and the preview require of a graph. */
    ghost predicate Valid() {
      IsDict() && KeysMatch() && DepsKnown() && Acyclic()
    }

    /** Every element of done comes after all of its dependencies. */
    ghost predicate DepsFirst(done: seq<Id>) {
      forall i, dep :: 0 <= i < |done| && Edge(done[i], dep) ==> dep in done[..i]
    }

    /** done lists every action once, dependencies first. */
    ghost predicate TopologicalOrder(done: seq<Id>) {
      && NoDup(done)
      && (forall id :: id in done <==> id in actions)
      && DepsFirst(done)
    }

    lemma DirectEdge(a: Id, b: Id)
      requires Edge(a, b)
      ensures DependsOn(a, b)
    {
      assert PathBetween([a, b], a, b);
    }

    lemma EdgeThenPath(a: Id, b: Id, c: Id)
      requires Edge(a, b) && DependsOn(b, c)
      ensures DependsOn(a, c)
    {
      var p :| PathBetween(p, b, c);
      var q := [a] + p;
      forall i | 0 <= i < |q| - 1 ensures Edge(q[i], q[i + 1]) {
        if i > 0 {
          assert q[i] == p[i - 1] && q[i + 1] == p[i];
        }
      }
      assert PathBetween(q, a, c);
    }

    /** A path starts with an edge, which either ends it or is followed by a path. */
    lemma FirstEdge(a: Id, c: Id) returns (b: Id)
      requires DependsOn(a, c)
      ensures Edge(a, b) && (b == c || DependsOn(b, c))
    {
      var p :| PathBetween(p, a, c);
      b := p[1];
      assert Edge(p[0], p[1]);
      if |p| > 2 {
        var q := p[1..];
        forall i | 0 <= i < |q| - 1 ensures Edge(q[i], q[i + 1]) {
          assert q[i] == p[i + 1] && q[i + 1] == p[i + 2];
        }
        assert PathBetween(q, b, c);
      }
    }

    /** Along a path positions in a dependencies-first listing go down. */
    lemma {:induction false} PathGoesDown(done: seq<Id>, p: seq<Id>, i: nat) returns (j: nat)
      requires DepsFirst(done)
      requires IsPath(p) && |p| >= 2 && i < |done| && p[0] == done[i]
      ensures j < i && done[j] == p[|p| - 1]
      decreases |p|
    {
      assert Edge(p[0], p[1]);
      assert p[1] in done[..i];
      j :| 0 <= j < i && done[j] == p[1];
      if |p| > 2 {
        var q := p[1..];
        forall k | 0 <= k < |q| - 1 ensures Edge(q[k], q[k + 1]) {
          assert q[k] == p[k + 1] && q[k + 1] == p[k + 2];
        }
        j := PathGoesDown(done, q, j);
      }
    }

    lemma OrderedMeansAcyclic(done: seq<Id>)
      requires TopologicalOrder(done)
      ensures Acyclic()
    {
      forall a | a in actions ensures !DependsOn(a, a) {
        if DependsOn(a, a) {
          var p :| PathBetween(p, a, a);
          var i :| 0 <= i < |done| && done[i] == a;
          var j := PathGoesDown(done, p, i);
          assert false;
        }
      }
    }

    ghost predicate DependsInto(a: Id, r: set<Id>) {
      exists b :: b in r && Edge(a, b)
    }

    /** If every member of a non-empty finite set depends on a member, one depends on itself. */
    lemma NoMinimumMeansCycle(r: set<Id>)
      requires r != {} && forall a :: a in r ==> DependsInto(a, r)
      ensures exists a :: a in r && DependsOn(a, a)
    {
      var w := Walk(r, |r| + 1);
      if NoDup(w) {
        NoDupBounded(w, r);
      }
      var i, j :| 0 <= i < j < |w| && w[i] == w[j];
      SubPath(w, i, j + 1);
      assert PathBetween(w[i..j + 1], w[i], w[i]);
      assert w[i] in r;
    }

    lemma SubPath(w: seq<Id>, i: nat, j: nat)
      requires IsPath(w) && i < j <= |w|
      ensures IsPath(w[i..j])
    {
      var p := w[i..j];
      forall k | 0 <= k < |p| - 1 ensures Edge(p[k], p[k + 1]) {
        assert p[k] == w[i + k] && p[k + 1] == w[i + k + 1];
      }
    }

    lemma LongerPath(w: seq<Id>, b: Id)
      requires IsPath(w) && Edge(w[|w| - 1], b)
      ensures IsPath(w + [b])
    {
    }

    lemma {:induction false} Walk(r: set<Id>, n: nat) returns (w: seq<Id>)
      requires r != {} && n > 0 && forall a :: a in r ==> DependsInto(a, r)
      ensures |w| == n && IsPath(w) && forall x :: x in w ==> x in r
      decreases n
    {
      if n == 1 {
        var a :| a in r;
        w := [a];
      } else {
        w := Walk(r, n - 1);
        var last := w[|w| - 1];
        assert last in w;
        assert DependsInto(last, r);
        var b :| b in r && Edge(last, b);
        LongerPath(w, b);
        w := w + [b];
      }
    }
  }
}
