/**
 * The two derived views of the graph (js/main.js): the relation-type filter of
 * `applyFilters` and the text search of `handleSearch`.
 */
module Views {
  import opened Wrappers
  import opened Seqs
  import opened Text
  import opened GraphData

  /**
   * The Set key `endpoint.id || endpoint`: the id string, except that a node whose
   * id is "" (falsy) contributes the node object itself, which equals no id string.
   */
  function KeyId(e: Endpoint): Option<string>
  {
    match e
    case Ref(n) => if n.id != "" then Some(n.id) else None
    case Name(id) => Some(id)
    case Missing => None
  }

  predicate KeyIn(e: Endpoint, ids: set<string>)
  {
    KeyId(e).Some? && KeyId(e).value in ids
  }

  /** The values of the checked boxes, in box order. */
  function CheckedTypes(checked: seq<bool>, types: seq<string>): (r: seq<string>)
    requires |checked| == |types|
    ensures forall t :: t in r <==> exists i :: 0 <= i < |types| && checked[i] && types[i] == t
    ensures r == [] <==> forall i :: 0 <= i < |checked| ==> !checked[i]
  {
    if checked == [] then []
    else
      var rest := CheckedTypes(checked[1..], types[1..]);
      assert forall i :: 1 <= i < |checked| ==> checked[1..][i - 1] == checked[i] && types[1..][i - 1] == types[i];
      if checked[0] then [types[0]] + rest else rest
  }

  /** The string members of the `nodeIds` Set built from the kept links. */
  function EndpointKeys(links: seq<Link>): set<string>
  {
    (set l | l in links && KeyId(l.source).Some? :: KeyId(l.source).value)
    + (set l | l in links && KeyId(l.target).Some? :: KeyId(l.target).value)
  }

  /** `applyFilters` with at least one type checked: links of a checked type, then the nodes they touch. */
  function FilterView(nodes: seq<Node>, links: seq<Link>, types: seq<string>): Graph
  {
    var kept := Filter(links, (l: Link) => l.kind in types);
    var ids := EndpointKeys(kept);
    Graph(Filter(nodes, (n: Node) => n.id in ids), kept)
  }

  /**
   * The filtered links are the graph's links of a checked type, each as often as in the
   * graph and in the graph's order; the filtered nodes are the graph's nodes, in order,
   * touched by a kept link, so no kept node is isolated and every node an end of a kept
   * link names is kept. A node whose id is "" is never kept (see `KeyId`).
   */
  lemma FilterViewSpec(nodes: seq<Node>, links: seq<Link>, types: seq<string>)
    requires Resolved(links)
    ensures var r := FilterView(nodes, links, types);
      && (forall l :: multiset(r.links)[l] == if l.kind in types then multiset(links)[l] else 0)
      && IsSubsequence(r.links, links)
      && (forall n :: n in r.nodes <==> n in nodes && n.id != "" && exists l :: l in r.links && Incident(l, n.id))
      && (forall n :: multiset(r.nodes)[n] == if n in r.nodes then multiset(nodes)[n] else 0)
      && IsSubsequence(r.nodes, nodes)
      && (forall l, m :: l in r.links && m in nodes && m.id != "" && Incident(l, m.id) ==> m in r.nodes)
  {
    var r := FilterView(nodes, links, types);
    FilterCount(links, (l: Link) => l.kind in types);
    var ids := EndpointKeys(r.links);
    FilterCount(nodes, (n: Node) => n.id in ids);
    EndpointKeysSpec(r.links);
  }

  /** A string is a key of the kept links iff it is a non-empty id at an end of one of them. */
  lemma EndpointKeysSpec(links: seq<Link>)
    requires Resolved(links)
    ensures forall n: Node :: n.id in EndpointKeys(links) <==> n.id != "" && exists l :: l in links && Incident(l, n.id)
  {
    var ids := EndpointKeys(links);
    forall n: Node ensures n.id in ids <==> n.id != "" && exists l :: l in links && Incident(l, n.id) {
      if n.id in ids {
        var l :| l in links && (KeyId(l.source) == Some(n.id) || KeyId(l.target) == Some(n.id));
        assert Incident(l, n.id);
      }
      if n.id != "" && exists l :: l in links && Incident(l, n.id) {
        var l :| l in links && Incident(l, n.id);
        assert KeyId(l.source) == Some(n.id) || KeyId(l.target) == Some(n.id);
      }
    }
  }

  /** Three nodes and two links of different types: filtering to one link's type keeps that link and its two ends. */
  lemma FilterViewExample()
    ensures
      var a, b, c := Node("a", "g", None), Node("b", "g", None), Node("c", "g", None);
      var marriage := Link(Ref(a), Ref(b), "婚姻", 3, None);
      var kin := Link(Ref(b), Ref(c), "亲属", 1, None);
      FilterView([a, b, c], [marriage, kin], ["婚姻"]) == Graph([a, b], [marriage])
  {
    var a, b, c := Node("a", "g", None), Node("b", "g", None), Node("c", "g", None);
    var marriage := Link(Ref(a), Ref(b), "婚姻", 3, None);
    var kin := Link(Ref(b), Ref(c), "亲属", 1, None);
    var isMarriage := (l: Link) => l.kind in ["婚姻"];
    assert "婚姻" != "亲属" by { assert "婚姻"[0] != "亲属"[0]; }
    assert [marriage, kin][1..] == [kin] && [kin][1..] == [];
    assert Filter([kin], isMarriage) == [];
    assert Filter([marriage, kin], isMarriage) == [marriage];
    var ids := EndpointKeys([marriage]);
    assert ids == {"a", "b"};
    var hasEnd := (n: Node) => n.id in ids;
    assert "c" != "a" && "c" != "b" by { assert "c"[0] != "a"[0] && "c"[0] != "b"[0]; }
    assert hasEnd(a) && hasEnd(b) && !hasEnd(c);
    assert [c][1..] == [];
    assert Filter([c], hasEnd) == [];
    assert [b, c][1..] == [c];
    assert Filter([b, c], hasEnd) == [b];
    assert [a, b, c][1..] == [b, c];
  }

  /** The search predicate: the lower-cased id, or a present non-empty description, includes the term. */
  predicate Matches(n: Node, term: string)
  {
    Includes(Lower(n.id), term)
    || (n.description.Some? && n.description.value != "" && Includes(Lower(n.description.value), term))
  }

  /** `handleSearch` with a non-empty term: matching nodes, then the links with both ends among them. */
  function SearchView(nodes: seq<Node>, links: seq<Link>, term: string): Graph
  {
    var kept := Filter(nodes, (n: Node) => Matches(n, term));
    var ids := set n | n in kept :: n.id;
    Graph(kept, Filter(links, (l: Link) => KeyIn(l.source, ids) && KeyIn(l.target, ids)))
  }

  /**
   * A node is kept iff the term occurs in its lower-cased id or in its lower-cased
   * description; a link is kept iff both its ends have a non-empty id shared by a kept node.
   * Both lists keep the graph's order.
   */
  lemma SearchViewSpec(nodes: seq<Node>, links: seq<Link>, term: string)
    requires Resolved(links)
    ensures var r := SearchView(nodes, links, term);
      && (forall n :: n in r.nodes <==>
            (n in nodes &&
             ((exists i :: OccursAt(Lower(n.id), term, i))
              || (n.description.Some? && exists i :: OccursAt(Lower(n.description.value), term, i)))))
      && (forall n :: multiset(r.nodes)[n] == if n in r.nodes then multiset(nodes)[n] else 0)
      && IsSubsequence(r.nodes, nodes)
      && (forall l :: l in r.links <==>
            (l in links &&
             l.source.node.id != "" && l.target.node.id != "" &&
             (exists m :: m in r.nodes && m.id == l.source.node.id) &&
             (exists m :: m in r.nodes && m.id == l.target.node.id)))
      && (forall l :: multiset(r.links)[l] == if l in r.links then multiset(links)[l] else 0)
      && IsSubsequence(r.links, links)
  {
    var r := SearchView(nodes, links, term);
    forall n ensures Matches(n, term) <==>
      (exists i :: OccursAt(Lower(n.id), term, i))
      || (n.description.Some? && exists i :: OccursAt(Lower(n.description.value), term, i))
    {
      IncludesIff(Lower(n.id), term);
      if n.description.Some? {
        IncludesIff(Lower(n.description.value), term);
        if n.description.value == "" && exists i :: OccursAt(Lower(n.description.value), term, i) {
          assert term == [];
          assert OccursAt(Lower(n.id), term, 0);
        }
      }
    }
    var ids := set n | n in r.nodes :: n.id;
    FilterCount(nodes, (n: Node) => Matches(n, term));
    FilterCount(links, (l: Link) => KeyIn(l.source, ids) && KeyIn(l.target, ids));
    forall l | l in links
      ensures KeyIn(l.source, ids) <==> l.source.node.id != "" && exists m :: m in r.nodes && m.id == l.source.node.id
      ensures KeyIn(l.target, ids) <==> l.target.node.id != "" && exists m :: m in r.nodes && m.id == l.target.node.id
    {
    }
  }
}
