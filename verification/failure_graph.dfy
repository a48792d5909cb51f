/** The failure-mode graph: a node for every artifact id, dependency edges, logic knots. */
module FailureGraph {
  import opened PyDict
  import opened WeakestLink
  import opened Belief
  import opened Certainty
  import opened StressTester

  datatype Node = Node(failures: nat, criticals: nat, partner: Id, children: seq<Id>)

  datatype Edge = Edge(from: Id, to: Id)

  type Nodes = Dict<Id, Node>

  function NodeOf(c: Claim): Node {
    Node(|c.failures|, |CriticalFailures(c.failures)|, "", [])
  }

  /** One node per id: a repeated id keeps its first place and its last claim. */
  function BareNodes(claims: seq<Claim>): (d: Nodes)
    ensures d.Valid()
  {
    NodesOf(Indexed(claims))
  }

  function NodesOf(d: Dict<Id, Claim>): (nodes: Nodes)
    requires d.Valid()
    ensures nodes.Valid()
  {
    Dict(d.order, map id | id in d.at :: NodeOf(d.at[id]))
  }

  function EdgesOf(id: Id, links: seq<Id>, known: set<Id>): seq<Edge> {
    if links == [] then []
    else
      var link := links[|links| - 1];
      EdgesOf(id, links[..|links| - 1], known) + (if link in known then [Edge(id, link)] else [])
  }

  function Edges(claims: seq<Claim>, known: set<Id>): seq<Edge> {
    if claims == [] then []
    else
      var c := claims[|claims| - 1];
      Edges(claims[..|claims| - 1], known) + EdgesOf(c.id, c.links, known)
  }

  /** Where the edges into `id` come from, in order. */
  function Sources(edges: seq<Edge>, id: Id): seq<Id> {
    if edges == [] then []
    else
      var e := edges[|edges| - 1];
      if e.to == id then Sources(edges[..|edges| - 1], id) + [e.from] else Sources(edges[..|edges| - 1], id)
  }

  /** The other side of the last knot that names `id`. */
  function PartnerOf(knots: seq<Knot>, id: Id): Id {
    if knots == [] then ""
    else
      var k := knots[|knots| - 1];
      if k.second == id then k.first
      else if k.first == id then k.second
      else PartnerOf(knots[..|knots| - 1], id)
  }

  /** The bare nodes with the sources of some edges as children and partners from some knots. */
  ghost predicate Dressed(nodes: Nodes, bare: Nodes, edges: seq<Edge>, knots: seq<Knot>) {
    && nodes.Valid() && nodes.order == bare.order && nodes.at.Keys == bare.at.Keys
    && forall id :: id in bare.at ==>
         nodes.at[id] == bare.at[id].(children := Sources(edges, id), partner := PartnerOf(knots, id))
  }

  class FailureModeGraph {
    var nodes: Nodes
    var edges: seq<Edge>
    var knots: seq<Knot>

    constructor ()
      ensures nodes == Empty() && edges == [] && knots == []
    {
      nodes, edges, knots := Empty(), [], [];
    }

    method Build(artifacts: seq<BeliefArtifact>, result: StressTestResult, ghost claims: seq<Claim>)
      requires Describe(claims, artifacts)
      modifies this
      ensures knots == result.knots
      ensures edges == Edges(claims, IdSet(claims)) && Dressed(nodes, BareNodes(claims), edges, knots)
    {
      nodes := NodesFor(artifacts, claims);
      edges, knots := [], result.knots;
      assert Dressed(nodes, BareNodes(claims), [], []);
      KnownIds(claims);
      for i := 0 to |artifacts|
        invariant edges == Edges(claims[..i], IdSet(claims)) && knots == result.knots
        invariant Dressed(nodes, BareNodes(claims), edges, [])
      {
        assert claims[..i + 1][..i] == claims[..i];
        AddEdges(artifacts[i].artifactId, artifacts[i].links, BareNodes(claims));
      }
      assert claims[..|claims|] == claims;
      MarkPartners(BareNodes(claims));
    }

    method NodesFor(artifacts: seq<BeliefArtifact>, ghost claims: seq<Claim>) returns (built: Nodes)
      requires Describe(claims, artifacts)
      ensures built == BareNodes(claims)
    {
      built := Empty();
      for i := 0 to |artifacts|
        invariant built == BareNodes(claims[..i])
      {
        BareNodesNext(claims, i);
        built := built.Put(artifacts[i].artifactId, NodeOf(artifacts[i].Snapshot()));
      }
      assert claims[..|claims|] == claims;
    }

    method AddEdges(id: Id, links: seq<Id>, ghost bare: Nodes)
      requires Dressed(nodes, bare, edges, [])
      modifies this`nodes, this`edges
      ensures edges == old(edges) + EdgesOf(id, links, bare.at.Keys)
      ensures Dressed(nodes, bare, edges, [])
    {
      for j := 0 to |links|
        invariant edges == old(edges) + EdgesOf(id, links[..j], bare.at.Keys)
        invariant Dressed(nodes, bare, edges, [])
      {
        assert links[..j + 1][..j] == links[..j];
        if links[j] in nodes.at {
          EdgeDresses(nodes, bare, edges, id, links[j]);
          var node := nodes.at[links[j]];
          edges := edges + [Edge(id, links[j])];
          nodes := nodes.Put(links[j], node.(children := node.children + [id]));
        }
      }
      assert links[..|links|] == links;
    }

    method MarkPartners(ghost bare: Nodes)
      requires Dressed(nodes, bare, edges, [])
      modifies this`nodes
      ensures Dressed(nodes, bare, edges, knots)
    {
      for i := 0 to |knots|
        invariant Dressed(nodes, bare, edges, knots[..i])
      {
        KnotDresses(nodes, bare, edges, knots, i);
        nodes := Marked(nodes, knots[i]);
      }
      assert knots[..|knots|] == knots;
    }

    method EquilibriumCheck() returns (calm: bool)
      requires nodes.Valid()
      ensures calm <==> knots == [] && forall id :: id in nodes.at ==> nodes.at[id].criticals == 0
    {
      var hasCritical := false;
      for i := 0 to |nodes.order|
        invariant hasCritical <==> exists k :: 0 <= k < i && nodes.at[nodes.order[k]].criticals > 0
      {
        if nodes.at[nodes.order[i]].criticals > 0 { hasCritical := true; }
      }
      calm := !hasCritical && |knots| == 0;
    }
  }

  /** Both sides of a knot, where they exist, get the other as partner; the second one last. */
  function Marked(nodes: Nodes, k: Knot): (r: Nodes)
    requires nodes.Valid()
    ensures r.Valid()
  {
    var one := if k.first in nodes.at then nodes.Put(k.first, nodes.at[k.first].(partner := k.second)) else nodes;
    if k.second in one.at then one.Put(k.second, one.at[k.second].(partner := k.first)) else one
  }

  lemma KnownIds(claims: seq<Claim>)
    ensures BareNodes(claims).at.Keys == IdSet(claims)
  {
    IndexedKeys(claims);
  }

  lemma {:induction false} IndexedKeys(claims: seq<Claim>)
    ensures Indexed(claims).at.Keys == IdSet(claims)
  {
    if claims != [] {
      var n := |claims| - 1;
      IndexedKeys(claims[..n]);
      IdSetNext(claims, n);
      assert claims[..n + 1] == claims;
    }
  }

  lemma BareNodesNext(claims: seq<Claim>, i: nat)
    requires i < |claims|
    ensures BareNodes(claims[..i + 1]) == BareNodes(claims[..i]).Put(claims[i].id, NodeOf(claims[i]))
  {
    IndexedNext(claims, i);
    NodesOfPut(Indexed(claims[..i]), claims[i]);
  }

  lemma NodesOfPut(d: Dict<Id, Claim>, c: Claim)
    requires d.Valid()
    ensures NodesOf(d.Put(c.id, c)) == NodesOf(d).Put(c.id, NodeOf(c))
  {
    assert NodesOf(d.Put(c.id, c)).at == NodesOf(d).Put(c.id, NodeOf(c)).at;
  }

  lemma EdgeDresses(nodes: Nodes, bare: Nodes, edges: seq<Edge>, from: Id, to: Id)
    requires Dressed(nodes, bare, edges, []) && to in nodes.at
    ensures var node := nodes.at[to];
      Dressed(nodes.Put(to, node.(children := node.children + [from])), bare, edges + [Edge(from, to)], [])
  {
    var more := edges + [Edge(from, to)];
    assert more[..|more| - 1] == edges;
  }

  lemma KnotDresses(nodes: Nodes, bare: Nodes, edges: seq<Edge>, knots: seq<Knot>, i: nat)
    requires i < |knots| && Dressed(nodes, bare, edges, knots[..i])
    ensures Dressed(Marked(nodes, knots[i]), bare, edges, knots[..i + 1])
  {
    assert knots[..i + 1][..i] == knots[..i];
  }
}
