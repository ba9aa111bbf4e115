/**
 * Emphasis of the drawn nodes and links (`highlightConnections` and `resetHighlight`,
 * js/main.js), as exact constants rather than DOM attributes.
 */
module Highlight {
  import opened Wrappers
  import opened GraphData

  /** The emphasis last applied to the drawn elements. */
  datatype Emphasis =
    | Fresh               // just drawn: default radii, no opacity attribute set
    | Plain               // after `resetHighlight`
    | Focus(center: Node) // after `highlightConnections(center)`

  /**
   * A node circle and its label: radius, stroke width, stroke and fill opacity,
   * whether the grey filter is on, and the label's opacity. `renderGraph` sets no opacity
   * on circles or labels, so a freshly drawn node's unset opacities are taken as the SVG
   * default of 1; a link's unset stroke opacity is instead kept apart (`None` in `LinkLook`)
   * from the 0.6 that the emphasis functions set.
   */
  datatype NodeLook = NodeLook(radius: int, strokeWidth: int, opacity: real, greyed: bool, textOpacity: real)

  /** A link line: its stroke opacity (None while the attribute is unset) and whether it is desaturated. */
  datatype LinkLook = LinkLook(opacity: Option<real>, greyed: bool)

  function DefaultRadius(n: Node): int { if n.group == MinorGroup then 7 else 10 }
  function DefaultStrokeWidth(n: Node): int { if n.group == MinorGroup then 1 else 2 }
  function FocusRadius(n: Node): int { if n.group == MinorGroup then 12 else 15 }

  /** `connectedNodes`: the id at the other end of every link incident to `id`. */
  function ConnectedIds(links: seq<Link>, id: string): set<string>
  {
    set l | l in IncidentLinks(links, id) && Opposite(l, id).Some? :: Opposite(l, id).value
  }

  /** Kept at full strength by a focus on `center`: the node itself or one at the other end of an incident link. */
  predicate Lit(links: seq<Link>, center: Node, n: Node)
  {
    n.id == center.id || n.id in ConnectedIds(links, center.id)
  }

  /** How a drawn node looks; `links` is the whole graph's link list, which the focus consults. */
  function NodeLookOf(e: Emphasis, links: seq<Link>, n: Node): NodeLook
  {
    match e
    case Fresh => NodeLook(DefaultRadius(n), DefaultStrokeWidth(n), 1.0, false, 1.0)
    case Plain => NodeLook(DefaultRadius(n), DefaultStrokeWidth(n), 1.0, false, 1.0)
    case Focus(c) =>
      var lit := Lit(links, c, n);
      NodeLook(
        if n.id == c.id then FocusRadius(n) else DefaultRadius(n),
        if n.id == c.id then 3 else DefaultStrokeWidth(n),
        if lit then 1.0 else 0.15,
        !lit,
        if lit then 1.0 else 0.3)
  }

  /** How a drawn link looks: under a focus, full iff it is one of `connectedLinks`. */
  function LinkLookOf(e: Emphasis, links: seq<Link>, l: Link): LinkLook
  {
    match e
    case Fresh => LinkLook(None, false)
    case Plain => LinkLook(Some(0.6), false)
    case Focus(c) =>
      if l in IncidentLinks(links, c.id) then LinkLook(Some(1.0), false) else LinkLook(Some(0.1), true)
  }

  /** a and b are joined by a link, in either direction. */
  ghost predicate Adjacent(links: seq<Link>, a: string, b: string)
  {
    exists l :: l in links &&
      ((EndpointId(l.source) == Some(a) && EndpointId(l.target) == Some(b))
       || (EndpointId(l.target) == Some(a) && EndpointId(l.source) == Some(b)))
  }

  /** Under a focus on c, a graph link is at full opacity iff it touches c, and otherwise greyed at 0.1. */
  lemma FocusLinkLook(c: Node, links: seq<Link>, l: Link)
    requires l in links
    ensures LinkLookOf(Focus(c), links, l) ==
      if Incident(l, c.id) then LinkLook(Some(1.0), false) else LinkLook(Some(0.1), true)
  {
  }

  /** Under a focus on c, a node is at full strength iff it is c or adjacent to c; the rest dim to 0.15. */
  lemma FocusNodeLit(c: Node, links: seq<Link>, n: Node)
    ensures Lit(links, c, n) <==> n.id == c.id || Adjacent(links, c.id, n.id)
    ensures NodeLookOf(Focus(c), links, n).opacity == if Lit(links, c, n) then 1.0 else 0.15
    ensures NodeLookOf(Focus(c), links, n).textOpacity == if Lit(links, c, n) then 1.0 else 0.3
    ensures NodeLookOf(Focus(c), links, n).greyed == !Lit(links, c, n)
  {
    if n.id in ConnectedIds(links, c.id) {
      var l :| l in IncidentLinks(links, c.id) && Opposite(l, c.id) == Some(n.id);
      assert l in links;
    }
    if Adjacent(links, c.id, n.id) && n.id != c.id {
      var l :| l in links &&
        ((EndpointId(l.source) == Some(c.id) && EndpointId(l.target) == Some(n.id))
         || (EndpointId(l.target) == Some(c.id) && EndpointId(l.source) == Some(n.id)));
      assert l in IncidentLinks(links, c.id) && Opposite(l, c.id) == Some(n.id);
    }
  }

  /** Only the focused node is enlarged (to 12 or 15) and outlined with width 3; every other node keeps 7/10 and 1/2. */
  lemma FocusRadiusOnlyCenter(c: Node, links: seq<Link>, n: Node)
    ensures NodeLookOf(Fresh, links, n).radius == if n.group == MinorGroup then 7 else 10
    ensures FocusRadius(n) == if n.group == MinorGroup then 12 else 15
    ensures NodeLookOf(Focus(c), links, n).radius ==
      if n.id == c.id then FocusRadius(n) else NodeLookOf(Fresh, links, n).radius
    ensures NodeLookOf(Focus(c), links, n).radius > DefaultRadius(n) <==> n.id == c.id
    ensures NodeLookOf(Focus(c), links, n).strokeWidth == if n.id == c.id then 3 else DefaultStrokeWidth(n)
  {
  }

  /**
   * `resetHighlight` draws every node as it was first drawn. Against any focus it changes exactly
   * the focused node and the dimmed nodes, and it changes every link of the graph, none of which
   * stays greyed.
   */
  lemma PlainLook(c: Node, links: seq<Link>, n: Node, l: Link)
    ensures NodeLookOf(Plain, links, n) == NodeLookOf(Fresh, links, n)
    ensures NodeLookOf(Plain, links, n) == NodeLookOf(Focus(c), links, n) <==> Lit(links, c, n) && n.id != c.id
    ensures !NodeLookOf(Plain, links, n).greyed && NodeLookOf(Plain, links, n).radius < FocusRadius(n)
    ensures l in links ==> LinkLookOf(Plain, links, l) != LinkLookOf(Focus(c), links, l)
    ensures !LinkLookOf(Plain, links, l).greyed && LinkLookOf(Plain, links, l).opacity == Some(0.6)
  {
  }
}
