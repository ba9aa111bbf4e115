/**
 * The graph document and the in-place link normalization done by `renderGraph`
 * (js/main.js): node ids become node references.
 */
module GraphData {
  import opened Wrappers
  import opened Seqs

  /** The group of the "minor role" nodes, drawn smaller. */
  const MinorGroup := "次要角色"

  datatype Node = Node(id: string, group: string, description: Option<string>)

  /**
   * A link endpoint as the page sees it: an id string from the JSON document,
   * a reference to a node object, or `undefined` (a lookup of an unknown id).
   */
  datatype Endpoint = Name(id: string) | Ref(node: Node) | Missing

  /** A relation; `kind` is the JSON field `type`. */
  datatype Link = Link(source: Endpoint, target: Endpoint, kind: string, value: int, description: Option<string>)

  datatype Graph = Graph(nodes: seq<Node>, links: seq<Link>)

  /** Every endpoint is a node reference: the state normalization is meant to reach. */
  predicate Resolved(links: seq<Link>)
  {
    forall l | l in links :: l.source.Ref? && l.target.Ref?
  }

  /** `endpoint.id`: only a node reference has one (a string's `id` property is `undefined`). */
  function EndpointId(e: Endpoint): Option<string>
  {
    if e.Ref? then Some(e.node.id) else None
  }

  /** `link.source.id === id || link.target.id === id`. */
  predicate Incident(l: Link, id: string)
  {
    EndpointId(l.source) == Some(id) || EndpointId(l.target) == Some(id)
  }

  /** `graph.links.filter(link => link.source.id === id || link.target.id === id)`. */
  function IncidentLinks(links: seq<Link>, id: string): seq<Link>
  {
    Filter(links, (l: Link) => Incident(l, id))
  }

  /** The id of the other end: `link.source.id === id ? link.target.id : link.source.id`. */
  function Opposite(l: Link, id: string): Option<string>
  {
    if EndpointId(l.source) == Some(id) then EndpointId(l.target) else EndpointId(l.source)
  }

  /** Node i is the last node of `nodes` whose id is `id`. */
  ghost predicate IsLastWithId(nodes: seq<Node>, i: int, id: string)
  {
    0 <= i < |nodes| && nodes[i].id == id && forall j :: i < j < |nodes| ==> nodes[j].id != id
  }

  /** The node an id names once every node has been stored under its id, later nodes overwriting earlier ones. */
  function LastWithId(nodes: seq<Node>, id: string): Option<Node>
  {
    if nodes == [] then None
    else if nodes[|nodes| - 1].id == id then Some(nodes[|nodes| - 1])
    else LastWithId(nodes[..|nodes| - 1], id)
  }

  lemma {:induction false} LastWithIdSpec(nodes: seq<Node>, id: string)
    ensures LastWithId(nodes, id).Some? <==> exists i :: 0 <= i < |nodes| && nodes[i].id == id
    ensures LastWithId(nodes, id).Some? ==>
      exists i :: IsLastWithId(nodes, i, id) && nodes[i] == LastWithId(nodes, id).value
  {
    if nodes != [] {
      var n := |nodes| - 1;
      if nodes[n].id == id {
        assert IsLastWithId(nodes, n, id);
      } else {
        var init := nodes[..n];
        LastWithIdSpec(init, id);
        if LastWithId(init, id).Some? {
          var i :| IsLastWithId(init, i, id) && init[i] == LastWithId(init, id).value;
          assert IsLastWithId(nodes, i, id);
        } else {
          forall i | 0 <= i < |nodes| ensures nodes[i].id != id {
            if i < n { assert init[i] == nodes[i]; }
          }
        }
      }
    }
  }

  function Lookup(index: map<string, Node>, id: string): Option<Node>
  {
    if id in index then Some(index[id]) else None
  }

  /** `index` is the `nodeById` table of `nodes`. */
  ghost predicate IndexOf(index: map<string, Node>, nodes: seq<Node>)
  {
    forall id :: Lookup(index, id) == LastWithId(nodes, id)
  }

  /** The `nodeById` table: each node stored under its id, in order, so a later duplicate wins. */
  method BuildIndex(nodes: seq<Node>) returns (index: map<string, Node>)
    ensures forall id :: Lookup(index, id) == LastWithId(nodes, id)
  {
    index := map[];
    var i := 0;
    while i < |nodes|
      invariant 0 <= i <= |nodes|
      invariant forall id :: Lookup(index, id) == LastWithId(nodes[..i], id)
    {
      assert nodes[..i + 1][..i] == nodes[..i];
      index := index[nodes[i].id := nodes[i]];
      i := i + 1;
    }
    assert nodes[..|nodes|] == nodes;
  }

  /** A string endpoint is looked up (an unknown id gives `undefined`); any other endpoint is kept. */
  function NormalizeEndpoint(index: map<string, Node>, e: Endpoint): Endpoint
  {
    match e
    case Name(id) => if id in index then Ref(index[id]) else Missing
    case _ => e
  }

  function NormalizeLink(index: map<string, Node>, l: Link): Link
  {
    l.(source := NormalizeEndpoint(index, l.source), target := NormalizeEndpoint(index, l.target))
  }

  /** The `forEach` over the links that replaces string endpoints in place. */
  method NormalizeLinks(index: map<string, Node>, links: array<Link>)
    modifies links
    ensures forall k :: 0 <= k < links.Length ==> links[k] == NormalizeLink(index, old(links[k]))
  {
    var k := 0;
    while k < links.Length
      invariant 0 <= k <= links.Length
      invariant forall j :: 0 <= j < k ==> links[j] == NormalizeLink(index, old(links[j]))
      invariant forall j :: k <= j < links.Length ==> links[j] == old(links[j])
    {
      var link := links[k];
      if link.source.Name? {
        link := link.(source := NormalizeEndpoint(index, link.source));
      }
      if link.target.Name? {
        link := link.(target := NormalizeEndpoint(index, link.target));
      }
      links[k] := link;
      k := k + 1;
    }
  }

  /**
   * What normalization does to one endpoint: a string names the last node with that id,
   * or becomes `undefined` when no node has it; a reference (or `undefined`) is untouched.
   */
  lemma NormalizeEndpointSpec(nodes: seq<Node>, index: map<string, Node>, e: Endpoint)
    requires IndexOf(index, nodes)
    ensures e.Name? && (exists i :: 0 <= i < |nodes| && nodes[i].id == e.id) ==>
      exists i :: IsLastWithId(nodes, i, e.id) && NormalizeEndpoint(index, e) == Ref(nodes[i])
    ensures e.Name? && (forall i :: 0 <= i < |nodes| ==> nodes[i].id != e.id) ==>
      NormalizeEndpoint(index, e) == Missing
    ensures !e.Name? ==> NormalizeEndpoint(index, e) == e
  {
    if e.Name? {
      LastWithIdSpec(nodes, e.id);
      assert Lookup(index, e.id) == LastWithId(nodes, e.id);
    }
  }

  /** The endpoint normalization produces, stated without the table: the last node with the id, if any. */
  function ResolveEndpoint(nodes: seq<Node>, e: Endpoint): Endpoint
  {
    if e.Name? then
      match LastWithId(nodes, e.id)
      case Some(n) => Ref(n)
      case None => Missing
    else e
  }

  lemma NormalizeIsResolve(nodes: seq<Node>, index: map<string, Node>, e: Endpoint)
    requires IndexOf(index, nodes)
    ensures NormalizeEndpoint(index, e) == ResolveEndpoint(nodes, e)
  {
    if e.Name? {
      assert Lookup(index, e.id) == LastWithId(nodes, e.id);
    }
  }

  /** Normalizing twice is normalizing once: `renderGraph` may run again on an already normalized graph. */
  lemma NormalizeIdempotent(index: map<string, Node>, l: Link)
    ensures NormalizeLink(index, NormalizeLink(index, l)) == NormalizeLink(index, l)
    ensures !NormalizeLink(index, l).source.Name? && !NormalizeLink(index, l).target.Name?
  {
  }

  /** A resolved link is a fixed point of normalization. */
  lemma NormalizeResolved(index: map<string, Node>, links: seq<Link>)
    requires Resolved(links)
    ensures forall l | l in links :: NormalizeLink(index, l) == l
  {
  }

  /** Every endpoint ends up a reference exactly when it was one, or was a string naming a node. */
  lemma NormalizeResolves(nodes: seq<Node>, index: map<string, Node>, e: Endpoint)
    requires IndexOf(index, nodes)
    ensures NormalizeEndpoint(index, e).Ref? <==>
      e.Ref? || (e.Name? && exists i :: 0 <= i < |nodes| && nodes[i].id == e.id)
  {
    if e.Name? {
      LastWithIdSpec(nodes, e.id);
      assert Lookup(index, e.id) == LastWithId(nodes, e.id);
    }
  }
}
