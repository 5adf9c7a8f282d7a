/** Reachability in a directed graph whose nodes may be unsound. */
module Graphs {
  datatype Graph<!T> = Graph(nodes: set<T>, sound: set<T>, needs: map<T, set<T>>)

  /** Every node has its needs recorded, and they are nodes. */
  ghost predicate Valid<T>(g: Graph<T>) {
    g.needs.Keys == g.nodes && forall k :: k in g.nodes ==> g.needs[k] <= g.nodes
  }

  /** A chain of needs from a root. */
  ghost predicate Chain<T>(g: Graph<T>, roots: set<T>, path: seq<T>) {
    && path != [] && path[0] in roots
    && (forall i :: 0 <= i < |path| ==> path[i] in g.needs)
    && forall i :: 0 <= i < |path| - 1 ==> path[i + 1] in g.needs[path[i]]
  }

  ghost predicate Reachable<T(!new)>(g: Graph<T>, roots: set<T>, k: T) {
    exists path :: Chain(g, roots, path) && path[|path| - 1] == k
  }

  /** Holds the roots and everything any of its nodes needs. */
  ghost predicate ClosedOver<T>(g: Graph<T>, roots: set<T>, s: set<T>)
    requires Valid(g)
  {
    roots <= s <= g.nodes && forall k :: k in s ==> g.needs[k] <= s
  }

  lemma RootReachable<T(!new)>(g: Graph<T>, roots: set<T>, k: T)
    requires k in roots && k in g.needs
    ensures Reachable(g, roots, k)
  {
    assert Chain(g, roots, [k]);
  }

  lemma NeedReachable<T(!new)>(g: Graph<T>, roots: set<T>, k: T, k': T)
    requires Valid(g) && Reachable(g, roots, k) && k in g.nodes && k' in g.needs[k]
    ensures Reachable(g, roots, k')
  {
    var path :| Chain(g, roots, path) && path[|path| - 1] == k;
    var longer := path + [k'];
    assert forall i :: 0 <= i < |path| ==> longer[i] == path[i];
    assert Chain(g, roots, longer);
    assert longer[|longer| - 1] == k';
  }

  lemma {:induction false} ChainStaysInside<T(!new)>(g: Graph<T>, roots: set<T>, s: set<T>, path: seq<T>)
    requires Valid(g) && ClosedOver(g, roots, s) && Chain(g, roots, path)
    ensures path[|path| - 1] in s
    decreases |path|
  {
    if |path| > 1 {
      var shorter := path[..|path| - 1];
      assert Chain(g, roots, shorter);
      ChainStaysInside(g, roots, s, shorter);
      assert path[|path| - 2 + 1] in g.needs[path[|path| - 2]];
    }
  }

  /** What is reachable is in every set closed over the roots. */
  lemma ReachableInside<T(!new)>(g: Graph<T>, roots: set<T>, s: set<T>)
    requires Valid(g) && ClosedOver(g, roots, s)
    ensures forall k :: Reachable(g, roots, k) ==> k in s
  {
    forall k | Reachable(g, roots, k) ensures k in s {
      var path :| Chain(g, roots, path) && path[|path| - 1] == k;
      ChainStaysInside(g, roots, s, path);
    }
  }

  /** What a worklist keeps true of its processed and its waiting nodes. */
  ghost predicate Exploring<T(!new)>(g: Graph<T>, roots: set<T>, included: set<T>, waiting: set<T>)
    requires Valid(g)
  {
    Discovered(g, roots, included, included + waiting)
  }

  /** `all` is what the worklist has met, `included` what it has expanded. */
  ghost predicate Discovered<T(!new)>(g: Graph<T>, roots: set<T>, included: set<T>, all: set<T>)
    requires Valid(g)
  {
    && roots <= all <= g.nodes && included <= all
    && (forall k :: k in all ==> Reachable(g, roots, k))
    && included <= g.sound
    && NeedsMet(g, included, all)
  }

  ghost predicate NeedsMet<T(!new)>(g: Graph<T>, included: set<T>, all: set<T>)
    requires included <= g.needs.Keys
  {
    forall k :: k in included ==> g.needs[k] <= all
  }

  lemma ExploringStarts<T(!new)>(g: Graph<T>, roots: set<T>)
    requires Valid(g) && roots <= g.nodes
    ensures Exploring(g, roots, {}, roots)
  {
    forall k | k in roots ensures Reachable(g, roots, k) { RootReachable(g, roots, k); }
  }

  lemma ExploringKey<T(!new)>(g: Graph<T>, roots: set<T>, included: set<T>, rest: set<T>, key: T)
    requires Valid(g) && Exploring(g, roots, included, rest + {key})
    ensures key in g.nodes && Reachable(g, roots, key)
  {
    assert key in included + (rest + {key});
  }

  lemma ExploringSkips<T(!new)>(g: Graph<T>, roots: set<T>, included: set<T>, rest: set<T>, key: T)
    requires Valid(g) && Exploring(g, roots, included, rest + {key}) && key in included
    ensures Exploring(g, roots, included, rest)
  {
    assert included + (rest + {key}) == included + rest;
  }

  lemma ExpandedReachable<T(!new)>(g: Graph<T>, roots: set<T>, all: set<T>, key: T)
    requires Valid(g) && key in all && key in g.nodes && forall k :: k in all ==> Reachable(g, roots, k)
    ensures forall k :: k in all + g.needs[key] ==> Reachable(g, roots, k)
  {
    forall k | k in g.needs[key] ensures Reachable(g, roots, k) {
      NeedReachable(g, roots, key, k);
    }
  }

  lemma DiscoveredExpands<T(!new)>(g: Graph<T>, roots: set<T>, included: set<T>, all: set<T>, key: T)
    requires Valid(g) && Discovered(g, roots, included, all) && key in all && key in g.sound && key in g.nodes
    ensures Discovered(g, roots, included + {key}, all + g.needs[key])
  {
    ExpandedReachable(g, roots, all, key);
    NeedsMetMore(g, included, all, key);
  }

  lemma NeedsMetMore<T(!new)>(g: Graph<T>, included: set<T>, all: set<T>, key: T)
    requires included <= g.needs.Keys && key in g.needs && NeedsMet(g, included, all)
    ensures NeedsMet(g, included + {key}, all + g.needs[key])
  {
  }

  lemma ExploringExpands<T(!new)>(g: Graph<T>, roots: set<T>, included: set<T>, rest: set<T>, key: T)
    requires Valid(g) && Exploring(g, roots, included, rest + {key}) && key in g.sound && key in g.nodes
    ensures Exploring(g, roots, included + {key}, rest + g.needs[key])
  {
    var all := included + (rest + {key});
    DiscoveredExpands(g, roots, included, all, key);
    assert included + {key} + (rest + g.needs[key]) == all + g.needs[key];
  }

  lemma ExploredIsLeast<T(!new)>(g: Graph<T>, roots: set<T>, included: set<T>)
    requires Valid(g) && Exploring(g, roots, included, {})
    ensures ClosedOver(g, roots, included) && included <= g.sound
    ensures forall s :: ClosedOver(g, roots, s) ==> included <= s
    ensures forall k :: k in included <==> Reachable(g, roots, k)
  {
    assert included + {} == included;
    ReachableInside(g, roots, included);
    forall s | ClosedOver(g, roots, s) ensures included <= s { ReachableInside(g, roots, s); }
  }
}
