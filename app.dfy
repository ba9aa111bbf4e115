/**
 * The page's graph state and its event handlers (js/main.js): the loaded graph,
 * the drawn subset, the selected node, the info panel, the emphasis of the drawn
 * elements, and the relation-type checkboxes.
 */
module App {
  import opened Wrappers
  import opened Text
  import opened GraphData
  import opened Views
  import opened Ranking
  import opened Highlight

  datatype Panel = Hidden | Shown(content: PanelContent)

  /** No two boxes are checked. */
  predicate AtMostOneChecked(checked: seq<bool>)
  {
    forall i, j :: 0 <= i < j < |checked| ==> !(checked[i] && checked[j])
  }

  /** An endpoint of the document that normalization can resolve. */
  predicate Resolvable(nodes: seq<Node>, e: Endpoint)
  {
    e.Ref? || (e.Name? && exists i :: 0 <= i < |nodes| && nodes[i].id == e.id)
  }

  class Page {
    /** `graph.nodes`: fixed once loaded. */
    const nodes: seq<Node>
    /** `graph.links`: their endpoints are rewritten in place by normalization. */
    const links: array<Link>
    /** The relation-type checkboxes, in document order, and their values. */
    const boxes: array<bool>
    const boxTypes: seq<string>
    /** The search box. */
    var searchText: string
    /** The nodes and links currently drawn. */
    var view: Graph
    /** `selectedNode`. */
    var selected: Option<Node>
    var panel: Panel
    var emphasis: Emphasis

    ghost predicate Valid()
      reads this, links, boxes
    {
      && |boxTypes| == boxes.Length
      && Resolved(links[..])
      && (forall n :: n in view.nodes ==> n in nodes)
      && (forall l :: l in view.links ==> l in links[..])
      && (selected.Some? ==> selected.value in nodes)
      && panel == (if selected.Some? then Shown(InfoPanel(selected.value, links[..])) else Hidden)
      && (emphasis.Focus? ==> selected == Some(emphasis.center))
    }

    /** The page after a successful load: the whole graph drawn, endpoints normalized, nothing selected. */
    constructor (nodes: seq<Node>, rawLinks: seq<Link>, boxTypes: seq<string>, checked: seq<bool>)
      requires |checked| == |boxTypes|
      requires forall l | l in rawLinks :: Resolvable(nodes, l.source) && Resolvable(nodes, l.target)
      ensures Valid() && fresh(links) && fresh(boxes)
      ensures this.nodes == nodes && this.boxTypes == boxTypes && boxes[..] == checked
      ensures links.Length == |rawLinks|
      ensures forall k :: 0 <= k < |rawLinks| ==>
        links[k] == rawLinks[k].(source := ResolveEndpoint(nodes, rawLinks[k].source),
                                 target := ResolveEndpoint(nodes, rawLinks[k].target))
      ensures view == Graph(nodes, links[..])
      ensures searchText == "" && selected == None && panel == Hidden && emphasis == Fresh
    {
      this.nodes := nodes;
      this.boxTypes := boxTypes;
      boxes := new bool[|checked|](i requires 0 <= i < |checked| => checked[i]);
      links := new Link[|rawLinks|](i requires 0 <= i < |rawLinks| => rawLinks[i]);
      searchText := "";
      selected := None;
      panel := Hidden;
      emphasis := Fresh;
      view := Graph(nodes, []);
      new;
      var index := BuildIndex(nodes);
      NormalizeLinks(index, links);
      forall k | 0 <= k < |rawLinks|
        ensures links[k] == rawLinks[k].(source := ResolveEndpoint(nodes, rawLinks[k].source),
                                          target := ResolveEndpoint(nodes, rawLinks[k].target))
        ensures links[k].source.Ref? && links[k].target.Ref?
      {
        assert rawLinks[k] in rawLinks;
        NormalizeIsResolve(nodes, index, rawLinks[k].source);
        NormalizeIsResolve(nodes, index, rawLinks[k].target);
        NormalizeResolves(nodes, index, rawLinks[k].source);
        NormalizeResolves(nodes, index, rawLinks[k].target);
      }
      view := Graph(nodes, links[..]);
    }

    /** `renderGraph(graph)`: normalize again (a no-op by now) and draw the whole graph afresh. */
    method RenderFull()
      requires Valid()
      modifies this, links
      ensures Valid() && links[..] == old(links[..])
      ensures view == Graph(nodes, links[..]) && emphasis == Fresh
      ensures selected == old(selected) && panel == old(panel) && searchText == old(searchText)
    {
      var index := BuildIndex(nodes);
      NormalizeResolved(index, links[..]);
      NormalizeLinks(index, links);
      assert links[..] == old(links[..]);
      view := Graph(nodes, links[..]);
      emphasis := Fresh;
    }

    /** `updateGraph(g)`: clears any selection (hiding the panel) and draws g afresh. */
    method UpdateGraph(g: Graph)
      requires Valid()
      requires forall n :: n in g.nodes ==> n in nodes
      requires forall l :: l in g.links ==> l in links[..]
      modifies this
      ensures Valid()
      ensures view == g && emphasis == Fresh && selected == None && panel == Hidden
      ensures searchText == old(searchText)
    {
      if selected.Some? {
        selected := None;
        panel := Hidden;
      }
      view := g;
      emphasis := Fresh;
    }

    /**
     * `applyFilters`: with no box checked, draw the whole graph; otherwise draw the links of
     * the checked types and the nodes they touch. Either way the selection is cleared.
     */
    method ApplyFilters()
      requires Valid()
      modifies this, links
      ensures Valid() && links[..] == old(links[..])
      ensures view == if CheckedTypes(boxes[..], boxTypes) == [] then Graph(nodes, links[..])
                      else FilterView(nodes, links[..], CheckedTypes(boxes[..], boxTypes))
      ensures selected == None && panel == Hidden && emphasis == Fresh
      ensures searchText == old(searchText)
    {
      var types := CheckedTypes(boxes[..], boxTypes);
      if types == [] {
        RenderFull();
        selected := None;
        panel := Hidden;
      } else {
        var g := FilterView(nodes, links[..], types);
        UpdateGraph(g);
      }
    }

    /** A click on a drawn node selects it, opens its panel and focuses the emphasis on it. */
    method ClickNode(d: Node)
      requires Valid() && d in view.nodes
      modifies this
      ensures Valid()
      ensures selected == Some(d) && panel == Shown(InfoPanel(d, links[..])) && emphasis == Focus(d)
      ensures view == old(view) && searchText == old(searchText)
    {
      selected := Some(d);
      panel := Shown(InfoPanel(d, links[..]));
      emphasis := Focus(d);
    }

    /** The panel's close button. */
    method CloseInfo()
      requires Valid()
      modifies this
      ensures Valid()
      ensures selected == None && panel == Hidden && emphasis == Plain
      ensures view == old(view) && searchText == old(searchText)
    {
      panel := Hidden;
      selected := None;
      emphasis := Plain;
    }

    /** The reset-highlight button: the emphasis goes, the selection and its panel stay. */
    method ResetHighlight()
      requires Valid()
      modifies this
      ensures Valid()
      ensures emphasis == Plain
      ensures selected == old(selected) && panel == old(panel) && view == old(view) && searchText == old(searchText)
    {
      emphasis := Plain;
    }

    /** A click on the canvas (a click on a node does not reach it) deselects, if anything is selected. */
    method ClickCanvas()
      requires Valid()
      modifies this
      ensures Valid()
      ensures selected == None && panel == Hidden
      ensures emphasis == if old(selected).Some? then Plain else old(emphasis)
      ensures view == old(view) && searchText == old(searchText)
    {
      if selected.Some? {
        panel := Hidden;
        selected := None;
        emphasis := Plain;
      }
    }

    /** `resetView`: every box unchecked, the search box emptied, the whole graph drawn, nothing selected. */
    method ResetView()
      requires Valid()
      modifies this, links, boxes
      ensures Valid() && links[..] == old(links[..])
      ensures forall i :: 0 <= i < boxes.Length ==> !boxes[i]
      ensures searchText == "" && view == Graph(nodes, links[..])
      ensures selected == None && panel == Hidden && emphasis == Fresh
    {
      var i := 0;
      while i < boxes.Length
        invariant 0 <= i <= boxes.Length
        invariant forall j :: 0 <= j < i ==> !boxes[j]
        modifies boxes
      {
        boxes[i] := false;
        i := i + 1;
      }
      assert links[..] == old(links[..]);
      searchText := "";
      RenderFull();
      panel := Hidden;
      selected := None;
    }

    /**
     * `handleSearch`: an empty box falls back to the filters; otherwise the matching nodes and
     * the links between them are drawn, the selection is cleared, and a single match is selected.
     */
    method Search(text: string)
      requires Valid()
      modifies this, links
      ensures Valid() && links[..] == old(links[..]) && searchText == text
      ensures text == [] ==>
        view == (if CheckedTypes(boxes[..], boxTypes) == [] then Graph(nodes, links[..])
                 else FilterView(nodes, links[..], CheckedTypes(boxes[..], boxTypes)))
        && selected == None && panel == Hidden && emphasis == Fresh
      ensures text != [] ==>
        view == SearchView(nodes, links[..], Lower(text))
        && selected == (if |view.nodes| == 1 then Some(view.nodes[0]) else None)
        && emphasis == (if |view.nodes| == 1 then Focus(view.nodes[0]) else Fresh)
    {
      searchText := text;
      var term := Lower(text);
      LowerEmpty(text);
      if term == [] {
        ApplyFilters();
      } else {
        var g := SearchView(nodes, links[..], term);
        UpdateGraph(g);
        if |g.nodes| == 1 {
          selected := Some(g.nodes[0]);
          panel := Shown(InfoPanel(g.nodes[0], links[..]));
          emphasis := Focus(g.nodes[0]);
        }
      }
    }

    /**
     * The change handler of box k, run after the browser has flipped it: checking a box
     * unchecks every other one, unchecking leaves the others alone; then the filters apply.
     */
    method ChangeBox(k: nat)
      requires Valid() && k < boxes.Length
      modifies this, links, boxes
      ensures Valid() && links[..] == old(links[..]) && boxes[k] == old(boxes[k])
      ensures old(boxes[k]) ==> forall j :: 0 <= j < boxes.Length && j != k ==> !boxes[j]
      ensures !old(boxes[k]) ==> boxes[..] == old(boxes[..])
      ensures old(boxes[k]) || old(AtMostOneChecked(boxes[..])) ==> AtMostOneChecked(boxes[..])
      ensures old(boxes[k]) ==> view == FilterView(nodes, links[..], [boxTypes[k]])
      ensures !old(boxes[k]) ==>
        (view == if CheckedTypes(boxes[..], boxTypes) == [] then Graph(nodes, links[..])
                 else FilterView(nodes, links[..], CheckedTypes(boxes[..], boxTypes)))
      ensures selected == None && panel == Hidden && emphasis == Fresh && searchText == old(searchText)
    {
      if boxes[k] {
        var i := 0;
        while i < boxes.Length
          invariant 0 <= i <= boxes.Length
          invariant boxes[k]
          invariant forall j :: 0 <= j < i && j != k ==> !boxes[j]
          invariant forall j :: i <= j < boxes.Length ==> boxes[j] == old(boxes[j])
          modifies boxes
        {
          if i != k {
            boxes[i] := false;
          }
          i := i + 1;
        }
        assert links[..] == old(links[..]);
        assert CheckedTypes(boxes[..], boxTypes) == [boxTypes[k]] by {
          CheckedSingle(boxes[..], boxTypes, k);
        }
      }
      ApplyFilters();
    }
  }

  /** With exactly box k checked, the filter sees exactly k's type. */
  lemma {:induction false} CheckedSingle(checked: seq<bool>, types: seq<string>, k: nat)
    requires |checked| == |types| && k < |checked|
    requires forall j :: 0 <= j < |checked| ==> (checked[j] <==> j == k)
    ensures CheckedTypes(checked, types) == [types[k]]
  {
    if k == 0 {
      assert CheckedTypes(checked[1..], types[1..]) == [];
    } else {
      CheckedSingle(checked[1..], types[1..], k - 1);
    }
  }
}
