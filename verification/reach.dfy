/** `compute_transitive_members` (src/lib.rs:124-141): a worklist closure
    from the roots over the dependency graph. */
module Reach {
  import opened Graph

  /** The elements of a set in some order, as `HashSet::iter` yields them. */
  method Enumerate(s: set<string>) returns (q: seq<string>)
    ensures forall x :: x in q <==> x in s
    ensures |q| == |s|
  {
    q := [];
    var rest := s;
    while rest != {}
      invariant rest <= s
      invariant forall x :: x in s <==> x in rest || x in q
      invariant forall x :: x in q ==> x !in rest
      invariant |q| + |rest| == |s|
      decreases rest
    {
      var x :| x in rest;
      q := q + [x];
      rest := rest - {x};
    }
  }

  /** What holds of the keep set and the stack between two pops: everything
      met is reachable, and every root and every dependency of a kept name is
      kept or still waiting on the stack. */
  ghost predicate Worklist(roots: set<string>, deps: Deps, keep: set<string>, stack: seq<string>) {
    && keep <= Nodes(roots, deps)
    && (forall x :: x in stack ==> x in Nodes(roots, deps) && Reachable(deps, roots, x))
    && (forall x :: x in keep ==> Reachable(deps, roots, x))
    && (forall r :: r in roots ==> r in keep || r in stack)
    && (forall a, b :: a in keep && Edge(deps, a, b) ==> b in keep || b in stack)
  }

  /** One turn of the loop: pop a name; if `keep.insert` reports it new,
      push its dependencies, if the graph has an entry for it. */
  method Visit(roots: set<string>, deps: Deps, keep: set<string>, stack: seq<string>)
    returns (keep': set<string>, stack': seq<string>)
    requires stack != []
    requires Worklist(roots, deps, keep, stack)
    ensures Worklist(roots, deps, keep', stack')
    ensures keep' != keep ==> |Nodes(roots, deps) - keep'| < |Nodes(roots, deps) - keep|
    ensures keep' == keep ==> |stack'| < |stack|
  {
    var member := stack[|stack| - 1];
    stack' := stack[..|stack| - 1];
    assert stack == stack' + [member];
    keep' := keep;
    if member !in keep {
      keep' := keep + {member};
      assert Nodes(roots, deps) - keep' == (Nodes(roots, deps) - keep) - {member};
      if member in deps {
        var ds := Enumerate(deps[member]);
        forall d | d in deps[member]
          ensures Reachable(deps, roots, d)
        {
          ReachableStep(deps, roots, member, d);
        }
        ReachableInNodes(deps, roots);
        ghost var popped := stack';
        stack' := stack' + ds;
        assert forall x :: x in stack' <==> x in popped || x in deps[member];
      }
    }
    forall a, b | a in keep' && Edge(deps, a, b)
      ensures b in keep' || b in stack'
    {
      if a !in keep {
        assert a == member && b in deps[member];
      }
    }
  }

  /** Before the first pop: nothing kept, every root on the stack. */
  lemma WorklistStart(roots: set<string>, deps: Deps, stack: seq<string>)
    requires forall x :: x in stack <==> x in roots
    ensures Worklist(roots, deps, {}, stack)
  {
    forall r | r in roots
      ensures Reachable(deps, roots, r)
    {
      RootReachable(deps, roots, r);
    }
  }

  /** Once the stack is empty the keep set is exactly the reachable names. */
  lemma WorklistDone(roots: set<string>, deps: Deps, keep: set<string>)
    requires Worklist(roots, deps, keep, [])
    ensures roots <= keep
    ensures Closed(deps, keep)
    ensures keep == KeepSet(roots, deps)
  {
    KeepSetLeast(roots, deps, keep);
  }

  /** Pops names until the stack is empty. A name is expanded at most once,
      so the loop ends even on a cyclic graph; a root without a graph entry
      is kept all the same. */
  method ComputeTransitiveMembers(roots: set<string>, deps: Deps) returns (keep: set<string>)
    ensures roots <= keep
    ensures Closed(deps, keep)
    ensures forall x :: x in keep <==> Reachable(deps, roots, x)
    ensures keep == KeepSet(roots, deps)
  {
    keep := {};
    var stack := Enumerate(roots);
    WorklistStart(roots, deps, stack);
    while stack != []
      invariant Worklist(roots, deps, keep, stack)
      decreases |Nodes(roots, deps) - keep|, |stack|
    {
      keep, stack := Visit(roots, deps, keep, stack);
    }
    WorklistDone(roots, deps, keep);
  }
}
