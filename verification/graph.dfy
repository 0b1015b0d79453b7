/** The workspace dependency graph and what "reachable from the roots" means.

    A graph maps a crate name to the names it depends on. The keep set of a
    reduction is defined here declaratively, by paths; the worklist that
    computes it is in module Reach. */
module Graph {

  type Deps = map<string, set<string>>

  ghost predicate Edge(deps: Deps, a: string, b: string) {
    a in deps && b in deps[a]
  }

  /** `p` starts at a root and follows dependency edges. */
  ghost predicate IsPath(deps: Deps, roots: set<string>, p: seq<string>) {
    && |p| > 0
    && p[0] in roots
    && forall i :: 0 <= i < |p| - 1 ==> Edge(deps, p[i], p[i + 1])
  }

  /** Some root reaches `x` by zero or more dependency edges. */
  ghost predicate Reachable(deps: Deps, roots: set<string>, x: string) {
    exists p :: IsPath(deps, roots, p) && p[|p| - 1] == x
  }

  /** Every dependency of a member of `s` is in `s`. */
  ghost predicate Closed(deps: Deps, s: set<string>) {
    forall a, b :: a in s && Edge(deps, a, b) ==> b in s
  }

  /** Every name a reduction can meet: the roots and every dependency target. */
  ghost function Nodes(roots: set<string>, deps: Deps): set<string> {
    roots + set a, b | a in deps && b in deps[a] :: b
  }

  /** The names reachable from the roots. */
  ghost function KeepSet(roots: set<string>, deps: Deps): (k: set<string>)
    ensures forall x :: x in k <==> Reachable(deps, roots, x)
  {
    ReachableInNodes(deps, roots);
    set x | x in Nodes(roots, deps) && Reachable(deps, roots, x)
  }

  lemma ReachableInNodes(deps: Deps, roots: set<string>)
    ensures forall x :: Reachable(deps, roots, x) ==> x in Nodes(roots, deps)
  {
    forall x | Reachable(deps, roots, x)
      ensures x in Nodes(roots, deps)
    {
      var p :| IsPath(deps, roots, p) && p[|p| - 1] == x;
      if |p| > 1 {
        assert Edge(deps, p[|p| - 2], p[|p| - 1]);
      }
    }
  }

  /** Every root is reachable, by the path that stays where it starts. */
  lemma RootReachable(deps: Deps, roots: set<string>, r: string)
    requires r in roots
    ensures Reachable(deps, roots, r)
  {
    assert IsPath(deps, roots, [r]);
  }

  /** Following one more edge from a reachable name stays reachable. */
  lemma ReachableStep(deps: Deps, roots: set<string>, a: string, b: string)
    requires Reachable(deps, roots, a)
    requires Edge(deps, a, b)
    ensures Reachable(deps, roots, b)
  {
    var p :| IsPath(deps, roots, p) && p[|p| - 1] == a;
    var q := p + [b];
    assert forall i :: 0 <= i < |p| ==> q[i] == p[i];
    assert IsPath(deps, roots, q);
  }

  /** A path from the roots never leaves a closed set holding the roots. */
  lemma {:induction false} PathInClosed(deps: Deps, roots: set<string>, s: set<string>, p: seq<string>)
    requires roots <= s
    requires Closed(deps, s)
    requires IsPath(deps, roots, p)
    ensures p[|p| - 1] in s
    decreases |p|
  {
    if |p| > 1 {
      var q := p[..|p| - 1];
      assert forall i :: 0 <= i < |q| ==> q[i] == p[i];
      assert IsPath(deps, roots, q);
      PathInClosed(deps, roots, s, q);
      assert Edge(deps, p[|p| - 2], p[|p| - 1]);
    }
  }

  /** The keep set holds the roots and is closed under dependency edges ... */
  lemma KeepSetClosed(roots: set<string>, deps: Deps)
    ensures roots <= KeepSet(roots, deps)
    ensures Closed(deps, KeepSet(roots, deps))
  {
    forall r | r in roots
      ensures r in KeepSet(roots, deps)
    {
      RootReachable(deps, roots, r);
    }
    forall a, b | a in KeepSet(roots, deps) && Edge(deps, a, b)
      ensures b in KeepSet(roots, deps)
    {
      ReachableStep(deps, roots, a, b);
    }
  }

  /** ... and is the least such set. */
  lemma KeepSetLeast(roots: set<string>, deps: Deps, s: set<string>)
    requires roots <= s
    requires Closed(deps, s)
    ensures KeepSet(roots, deps) <= s
  {
    forall x | x in KeepSet(roots, deps)
      ensures x in s
    {
      var p :| IsPath(deps, roots, p) && p[|p| - 1] == x;
      PathInClosed(deps, roots, s, p);
    }
  }
}
