/**
 Dependency validation of a deployment manifest: a three-colour depth-first search
 over the `depends_on` graph that returns a cycle, or nothing when there is none.

 The search is a class because it updates a shared colour table and a shared path in
 place.  A ghost field records the order in which contracts are finished; on success
 it is the deployment order whose existence the manifest documentation promises.
 */
module DependencyCycle {
  import opened Common

  /** The `depends_on` field of one manifest entry, as parsed from JSON. */
  datatype DependsOn = Absent | Malformed | Names(names: seq<string>)

  datatype Entry = NotAnObject | Object(dependsOn: DependsOn)

  type Manifest = map<string, Entry>

  datatype Color = White | Gray | Black

  function Dependencies(m: Manifest, name: string): seq<string>
    requires name in m
  {
    match m[name]
    case Object(Names(names)) => names
    case _ => []
  }

  /** The entry of `a` names `b` under `depends_on`, and both are contracts of the manifest. */
  ghost predicate Edge(m: Manifest, a: string, b: string) {
    && a in m && b in m
    && m[a].Object? && m[a].dependsOn.Names? && b in m[a].dependsOn.names
  }

  ghost predicate Walk(m: Manifest, w: seq<string>) {
    && (forall i :: 0 <= i < |w| ==> w[i] in m)
    && (forall i, j :: 0 <= i && j == i + 1 && j < |w| ==> Edge(m, w[i], w[j]))
  }

  ghost predicate Cycle(m: Manifest, w: seq<string>) {
    |w| >= 2 && Walk(m, w) && w[0] == w[|w| - 1]
  }

  ghost predicate Acyclic(m: Manifest) {
    forall w :: !Cycle(m, w)
  }

  ghost predicate Distinct(s: seq<string>) {
    forall i, j :: 0 <= i < j < |s| ==> s[i] != s[j]
  }

  /** A cycle that visits no contract twice before it closes. */
  ghost predicate SimpleCycle(m: Manifest, w: seq<string>) {
    Cycle(m, w) && Distinct(w[..|w| - 1])
  }

  /** `longer` holds everything that `s` holds. */
  ghost predicate Holds(longer: seq<string>, s: seq<string>) {
    forall n :: n in s ==> n in longer
  }

  ghost predicate DependenciesFirst(m: Manifest, order: seq<string>) {
    && Distinct(order)
    && forall i, d :: 0 <= i < |order| && Edge(m, order[i], d) ==> d in order[..i]
  }

  /** Every contract once, each after everything it depends on. */
  ghost predicate DeploymentOrder(m: Manifest, order: seq<string>) {
    DependenciesFirst(m, order) && forall n :: n in m <==> n in order
  }

  /** Two contracts that name each other form a cycle; without the second name they can be deployed, the second first. */
  lemma MutualDependency(a: string, b: string, m: Manifest)
    requires a != b && m == map[a := Object(Names([b])), b := Object(Names([a]))]
    ensures SimpleCycle(m, [a, b, a]) && !Acyclic(m)
    ensures DeploymentOrder(m[b := Object(Absent)], [b, a])
  {
    var w, order := [a, b, a], [b, a];
    assert w[..2] == [a, b] && Cycle(m, w);
    assert order[..1] == [b] && order[0] in order[..1];
  }

  /** A walk only ever moves to earlier positions of a dependencies-first order. */
  lemma {:induction false} WalkDescends(m: Manifest, order: seq<string>, w: seq<string>, i: nat) returns (j: nat)
    requires DependenciesFirst(m, order) && Walk(m, w)
    requires i < |order| && |w| > 0 && w[0] == order[i]
    ensures j <= i && order[j] == w[|w| - 1]
    ensures |w| > 1 ==> j < i
    decreases |w|
  {
    if |w| == 1 {
      j := i;
    } else {
      assert Edge(m, w[0], w[1]);
      var k :| 0 <= k < i && order[k] == w[1];
      j := WalkDescends(m, order, w[1..], k);
    }
  }

  /** A deployment order exists only for an acyclic graph. */
  lemma DeploymentOrderImpliesAcyclic(m: Manifest, order: seq<string>)
    requires DeploymentOrder(m, order)
    ensures Acyclic(m)
  {
    forall w ensures !Cycle(m, w) {
      if Cycle(m, w) {
        assert w[0] in order;
        var i :| 0 <= i < |order| && order[i] == w[0];
        var j := WalkDescends(m, order, w, i);
        assert false;
      }
    }
  }

  /** A path that takes one more contract, new to it and needed by its last one, is still a path. */
  lemma AddLast(m: Manifest, path: seq<string>, node: string)
    requires Distinct(path) && Walk(m, path) && node !in path && node in m
    requires path != [] ==> Edge(m, path[|path| - 1], node)
    ensures var longer := path + [node];
            && Distinct(longer) && Walk(m, longer) && (forall n :: n in longer <==> n in path || n == node)
            && longer[..|longer| - 1] == path && longer[|longer| - 1] == node
  {
  }

  /** A path that gives up its last contract keeps all the others. */
  lemma DropLast(m: Manifest, path: seq<string>)
    requires path != [] && Distinct(path) && Walk(m, path)
    ensures var front, last := path[..|path| - 1], path[|path| - 1];
            Distinct(front) && Walk(m, front) && forall n :: n in front <==> n in path && n != last
  {
    var front, last := path[..|path| - 1], path[|path| - 1];
    forall n ensures n in front <==> n in path && n != last {
      assert path == front + [last];
    }
  }

  class CycleFinder {
    const contracts: Manifest
    var color: map<string, Color>
    var path: seq<string>
    ghost var finished: seq<string>

    constructor (contracts: Manifest)
      ensures this.contracts == contracts
      ensures Valid() && path == [] && finished == []
      ensures forall n :: n in contracts ==> color[n] == White
    {
      this.contracts := contracts;
      color := map n | n in contracts :: White;
      path, finished := [], [];
    }

    ghost predicate Valid()
      reads this
    {
      && color.Keys == contracts.Keys
      && Distinct(path)
      && (forall n :: n in path <==> n in color && color[n] == Gray)
      && Walk(contracts, path)
      && (forall n :: n in finished <==> n in color && color[n] == Black)
      && DependenciesFirst(contracts, finished)
    }

    ghost function Unvisited(): set<string>
      reads this
    {
      set n | n in color && color[n] == White
    }

    /** How many contracts the search has not reached. */
    ghost function Left(): nat
      reads this
    {
      |Unvisited()|
    }

    /** Paints `node` gray and puts it at the end of the path. */
    method Enter(node: string)
      requires Valid()
      requires node in contracts && color[node] == White
      requires path != [] ==> Edge(contracts, path[|path| - 1], node)
      modifies this
      ensures Valid() && finished == old(finished)
      ensures path != [] && path[..|path| - 1] == old(path) && path[|path| - 1] == node
      ensures Left() < old(Left())
    {
      assert node !in path;
      AddLast(contracts, path, node);
      color := color[node := Gray];
      path := path + [node];
      assert old(Unvisited()) == Unvisited() + {node};
    }

    /** Takes `node` off the path and paints it black, once its dependencies are finished. */
    method Leave(node: string)
      requires Valid() && path != [] && path[|path| - 1] == node
      requires forall d :: Edge(contracts, node, d) ==> d in finished
      modifies this
      ensures Valid() && path == old(path)[..|old(path)| - 1]
      ensures finished == old(finished) + [node]
      ensures Left() == old(Left())
    {
      FinishedFirst(node);
      DropLast(contracts, path);
      path := path[..|path| - 1];
      color := color[node := Black];
      finished := finished + [node];
      assert Unvisited() == old(Unvisited());
    }

    /** Explores `node`: a simple cycle reached from it, or a longer finished order. */
    method Visit(node: string) returns (result: Option<seq<string>>)
      requires Valid()
      requires node in contracts && color[node] == White
      requires path != [] ==> Edge(contracts, path[|path| - 1], node)
      modifies this
      ensures result.Some? ==> SimpleCycle(contracts, result.value)
      ensures result.None? ==>
        && Valid() && path == old(path)
        && Holds(finished, old(finished)) && node in finished
        && Left() < old(Left())
      decreases Left(), 0
    {
      Enter(node);
      result := FollowAll(node);
      if result.None? {
        Leave(node);
      }
    }

    /** Every dependency of the contract at the end of the path, in order, until one leads to a cycle. */
    method FollowAll(node: string) returns (result: Option<seq<string>>)
      requires Valid() && path != [] && path[|path| - 1] == node
      modifies this
      ensures result.Some? ==> SimpleCycle(contracts, result.value)
      ensures result.None? ==>
        && Valid() && path == old(path)
        && Holds(finished, old(finished)) && (forall d :: Edge(contracts, node, d) ==> d in finished)
        && Left() <= old(Left())
      decreases Left(), 2
    {
      assert node in path;
      var deps := Dependencies(contracts, node);
      for i := 0 to |deps|
        invariant Valid() && path == old(path)
        invariant Holds(finished, old(finished)) && Left() <= old(Left())
        invariant forall k :: 0 <= k < i && deps[k] in contracts ==> deps[k] in finished
      {
        if deps[i] in color {
          assert Edge(contracts, node, deps[i]);
          result := Follow(deps[i]);
          if result.Some? {
            return;
          }
        }
      }
      result := None;
    }

    /** One dependency of the contract at the end of the path: a back edge, a new contract, or a finished one. */
    method Follow(dep: string) returns (result: Option<seq<string>>)
      requires Valid() && path != [] && Edge(contracts, path[|path| - 1], dep)
      modifies this
      ensures result.Some? ==> SimpleCycle(contracts, result.value)
      ensures result.None? ==>
        && Valid() && path == old(path)
        && Holds(finished, old(finished)) && dep in finished
        && Left() <= old(Left())
      decreases Left(), 1
    {
      result := None;
      if color[dep] == Gray {
        var cycle := BackEdge(dep);
        return Some(cycle);
      }
      if color[dep] == White {
        result := Visit(dep);
      }
    }

    /** The path from a gray dependency onwards, closed by that dependency. */
    method BackEdge(dep: string) returns (cycle: seq<string>)
      requires Valid() && dep in contracts && color[dep] == Gray
      requires path != [] && Edge(contracts, path[|path| - 1], dep)
      ensures SimpleCycle(contracts, cycle)
    {
      var start := IndexOf(path, dep);
      cycle := path[start..] + [dep];
      CloseCycle(start, dep);
    }

    /** The gray suffix of the path plus the back edge is a simple cycle. */
    lemma CloseCycle(start: nat, dep: string)
      requires Valid() && start < |path| && path[start] == dep
      requires Edge(contracts, path[|path| - 1], dep)
      ensures SimpleCycle(contracts, path[start..] + [dep])
    {
      var w := path[start..] + [dep];
      assert w[..|w| - 1] == path[start..];
    }

    /** A contract whose known dependencies are all finished may be finished next. */
    lemma FinishedFirst(node: string)
      requires Valid() && node in contracts && color[node] == Gray
      requires forall d :: Edge(contracts, node, d) ==> d in finished
      ensures DependenciesFirst(contracts, finished + [node])
    {
      var order := finished + [node];
      forall i, d | 0 <= i < |order| && Edge(contracts, order[i], d) ensures d in order[..i] {
        if i < |finished| {
          assert order[..i] == finished[..i];
        } else {
          assert order[..i] == finished;
        }
      }
    }

    /** Starts a search at every contract that no earlier search reached. */
    method Search(names: seq<string>) returns (result: Option<seq<string>>)
      requires Valid() && path == []
      requires forall n :: n in names <==> n in contracts
      modifies this
      ensures result.Some? ==> SimpleCycle(contracts, result.value)
      ensures result.None? ==> DeploymentOrder(contracts, finished)
    {
      var i := 0;
      while i < |names|
        invariant 0 <= i <= |names|
        invariant Valid() && path == []
        invariant forall k :: 0 <= k < i ==> names[k] in finished
      {
        if color[names[i]] == White {
          result := Visit(names[i]);
          if result.Some? {
            return;
          }
        }
        i := i + 1;
      }
      result := None;
    }
  }

  /** First position of `x` in a list that holds it. */
  method IndexOf(s: seq<string>, x: string) returns (k: nat)
    requires x in s
    ensures k < |s| && s[k] == x && x !in s[..k]
  {
    k := 0;
    while s[k] != x
      invariant k < |s| && x !in s[..k]
      invariant x in s[k..]
      decreases |s| - k
    {
      k := k + 1;
    }
  }

  /**
   Sound and complete: a returned list is a simple cycle of the manifest, and nothing is
   returned exactly when the graph is acyclic, which is exactly when the contracts can be
   deployed one after another with dependencies first.
   */
  method FindDependencyCycle(contracts: Manifest, names: seq<string>) returns (result: Option<seq<string>>)
    requires forall n :: n in names <==> n in contracts
    ensures result.Some? ==> SimpleCycle(contracts, result.value)
    ensures result.None? <==> Acyclic(contracts)
    ensures result.None? <==> exists order :: DeploymentOrder(contracts, order)
  {
    var finder := new CycleFinder(contracts);
    result := finder.Search(names);
    if result.None? {
      DeploymentOrderImpliesAcyclic(contracts, finder.finished);
    } else {
      assert Cycle(contracts, result.value);
      forall order ensures !DeploymentOrder(contracts, order) {
        if DeploymentOrder(contracts, order) {
          DeploymentOrderImpliesAcyclic(contracts, order);
        }
      }
    }
  }
}
