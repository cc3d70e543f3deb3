/** The three-colour depth-first search that keeps the task graph a DAG. */
module CycleGuard {
  import opened Prelude
  import opened Digraph

  /** A vertex with no colour yet is white. */
  datatype Color = Grey | Black

  ghost predicate Finished(color: map<string, Color>, v: string) {
    v in color && color[v] == Black
  }

  /** The grey vertices are exactly those on the walk, once each. */
  ghost predicate GreyWalk(edges: set<Edge>, color: map<string, Color>, path: seq<string>) {
    && NoDup(path)
    && (path == [] || IsWalk(edges, path))
    && (forall v :: v in color && color[v] == Grey <==> v in path)
  }

  /** An edge leaving a black vertex enters one that turned black earlier. */
  ghost predicate BlackOrder(edges: set<Edge>, color: map<string, Color>, rank: map<string, nat>, clock: nat) {
    && (forall v :: Finished(color, v) ==> v in rank && rank[v] < clock)
    && (forall e :: e in edges && Finished(color, e.0) ==> Finished(color, e.1) && rank[e.1] < rank[e.0])
  }

  /** Colours already given to finished vertices stay. */
  ghost predicate Extends(before: map<string, Color>, after: map<string, Color>) {
    forall v :: v in before ==> v in after && after[v] == before[v]
  }

  lemma EnterKeeps(edges: set<Edge>, color: map<string, Color>, path: seq<string>, rank: map<string, nat>, clock: nat,
                   v: string)
    requires GreyWalk(edges, color, path) && BlackOrder(edges, color, rank, clock)
    requires v !in color && (path == [] || (path[|path| - 1], v) in edges)
    ensures GreyWalk(edges, color[v := Grey], path + [v])
    ensures BlackOrder(edges, color[v := Grey], rank, clock)
  {
    var grey := color[v := Grey];
    assert forall u :: Finished(grey, u) <==> Finished(color, u);
    assert forall u :: u in path + [v] <==> u in path || u == v;
  }

  lemma LeaveKeeps(edges: set<Edge>, color: map<string, Color>, path: seq<string>, rank: map<string, nat>, clock: nat,
                   v: string)
    requires GreyWalk(edges, color, path + [v]) && BlackOrder(edges, color, rank, clock)
    requires forall e :: e in edges && e.0 == v ==> Finished(color, e.1)
    ensures GreyWalk(edges, color[v := Black], path)
    ensures BlackOrder(edges, color[v := Black], rank[v := clock], clock + 1)
  {
    var p := path + [v];
    assert p[|p| - 1] == v;
    assert forall u :: u in p <==> u in path || u == v;
    assert forall i :: 0 <= i < |path| ==> path[i] == p[i] && p[i] != p[|p| - 1];
    assert v !in path;
    assert color[v] == Grey;
    var black := color[v := Black];
    assert forall u :: Finished(black, u) <==> Finished(color, u) || u == v;
  }

  lemma LeaveExtends(before: map<string, Color>, color: map<string, Color>, v: string)
    requires v !in before && Extends(before[v := Grey], color)
    ensures Extends(before, color[v := Black]) && Finished(color[v := Black], v)
  {
    assert forall u :: u in before ==> u in before[v := Grey] && before[v := Grey][u] == before[u];
  }

  /** An edge back onto the walk closes a cycle. */
  lemma BackEdge(edges: set<Edge>, path: seq<string>, c: string)
    requires path != [] && IsWalk(edges, path)
    requires (path[|path| - 1], c) in edges && c in path
    ensures HasCycle(edges)
  {
    var k :| 0 <= k < |path| && path[k] == c;
    var closed := path + [c];
    assert IsWalk(edges, closed);
    RepeatIsCycle(edges, closed, k, |path|);
  }

  /** `adj` lists the successors of every edge in `edges`, and no others. */
  ghost predicate Lists(adj: map<string, seq<string>>, edges: set<Edge>) {
    && (forall e :: e in edges ==> e.0 in adj && e.1 in adj[e.0])
    && (forall v, w :: v in adj && w in adj[v] ==> (v, w) in edges)
  }

  class Search {
    const adj: map<string, seq<string>>
    ghost const edges: set<Edge>
    ghost const vertices: set<string>
    var color: map<string, Color>
    ghost var path: seq<string>        // the grey vertices, outermost call first
    ghost var rank: map<string, nat>   // when a vertex turned black
    ghost var clock: nat

    ghost predicate Valid()
      reads this
    {
      GreyWalk(edges, color, path) && BlackOrder(edges, color, rank, clock)
    }

    constructor (adj: map<string, seq<string>>, ghost edges: set<Edge>, ghost vertices: set<string>)
      ensures Valid() && this.adj == adj && this.edges == edges && this.vertices == vertices
      ensures path == [] && color == map[]
    {
      this.adj, this.edges, this.vertices := adj, edges, vertices;
      color, path, rank, clock := map[], [], map[], 0;
    }

    /** One call of `visit`: colours the vertex grey, follows its edges, colours it black. */
    method Visit(node: string) returns (found: bool)
      requires Lists(adj, edges) && (forall e :: e in edges ==> e.1 in vertices)
      requires Valid() && node in vertices && node !in color
      requires path == [] || (path[|path| - 1], node) in edges
      modifies this
      ensures found ==> HasCycle(edges)
      ensures !found ==> Valid() && path == old(path) && Extends(old(color), color) && Finished(color, node)
      decreases vertices - color.Keys, 0
    {
      ghost var outer := path;
      EnterKeeps(edges, color, path, rank, clock, node);
      color := color[node := Grey];
      path := path + [node];
      assert node in vertices - old(color).Keys && node !in vertices - color.Keys;
      found := Follow(node);
      if !found {
        LeaveKeeps(edges, color, outer, rank, clock, node);
        LeaveExtends(old(color), color, node);
        color := color[node := Black];
        rank, clock := rank[node := clock], clock + 1;
        path := outer;
      }
    }

    /** The loop of `visit`: a grey successor closes a cycle, a white one is visited. */
    method Follow(node: string) returns (found: bool)
      requires Lists(adj, edges) && (forall e :: e in edges ==> e.1 in vertices)
      requires Valid() && path != [] && path[|path| - 1] == node
      modifies this
      ensures found ==> HasCycle(edges)
      ensures !found ==> Valid() && path == old(path) && Extends(old(color), color)
      ensures !found ==> forall e :: e in edges && e.0 == node ==> Finished(color, e.1)
      decreases vertices - color.Keys, 2
    {
      var next := if node in adj then adj[node] else [];
      for i := 0 to |next|
        invariant Valid() && path == old(path) && Extends(old(color), color)
        invariant forall k :: 0 <= k < i ==> Finished(color, next[k])
      {
        assert (node, next[i]) in edges;
        found := FollowEdge(node, next[i]);
        if found {
          return;
        }
      }
      return false;
    }

    method FollowEdge(node: string, c: string) returns (found: bool)
      requires Lists(adj, edges) && (forall e :: e in edges ==> e.1 in vertices)
      requires Valid() && path != [] && path[|path| - 1] == node && (node, c) in edges
      modifies this
      ensures found ==> HasCycle(edges)
      ensures !found ==> Valid() && path == old(path) && Extends(old(color), color) && Finished(color, c)
      decreases vertices - color.Keys, 1
    {
      if c in color && color[c] == Grey {
        BackEdge(edges, path, c);
        return true;
      }
      if c !in color {
        found := Visit(c);
        return;
      }
      return false;
    }
  }

  /** The guard answers exactly the question it is named for. */
  method WouldCycle(edges: seq<Edge>) returns (r: bool)
    ensures r <==> HasCycle(Elems(edges))
  {
    var adj: map<string, seq<string>>, keys: seq<string> := map[], [];
    for i := 0 to |edges|
      invariant forall v :: v in keys <==> v in adj
      invariant forall k :: 0 <= k < i ==> edges[k].0 in adj && edges[k].1 in adj[edges[k].0]
      invariant forall v, w :: v in adj && w in adj[v] ==> (v, w) in edges[..i]
    {
      var (p, c) := edges[i];
      if p !in adj {
        keys := keys + [p];
        adj := adj[p := []];
      }
      adj := adj[p := adj[p] + [c]];
    }
    ghost var vertices := Elems(keys) + set e | e in edges :: e.1;
    var search := new Search(adj, Elems(edges), vertices);
    for i := 0 to |keys|
      invariant search.Valid() && search.path == []
      invariant search.edges == Elems(edges) && search.vertices == vertices
      invariant forall k :: 0 <= k < i ==> Finished(search.color, keys[k])
      modifies search
    {
      if keys[i] !in search.color {
        var found := search.Visit(keys[i]);
        if found {
          return true;
        }
      }
    }
    assert forall e :: e in search.edges ==> Finished(search.color, e.0);
    RankedIsAcyclic(search.edges, search.rank);
    return false;
  }
}
