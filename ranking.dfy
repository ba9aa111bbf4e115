/**
 * The relation list of the info panel (`showInfoPanel`, js/main.js): the links
 * incident to a node, stably sorted by descending weight, at most ten of them.
 */
module Ranking {
  import opened Wrappers
  import opened GraphData

  /** The panel lists at most this many relations. */
  const MaxRelations := 10

  /** The panel's text for a node without a description. */
  const NoDescription := "暂无描述"

  predicate SortedByValueDesc(s: seq<Link>)
  {
    forall i, j :: 0 <= i < j < |s| ==> s[i].value >= s[j].value
  }

  /** The links of s whose value is v, in the order of s. */
  function OfValue(s: seq<Link>, v: int): (r: seq<Link>)
    ensures forall l :: l in r <==> l in s && l.value == v
  {
    if s == [] then []
    else if s[0].value == v then [s[0]] + OfValue(s[1..], v)
    else OfValue(s[1..], v)
  }

  /** Puts l in front of the first element whose value is not larger, so ahead of the links of equal value. */
  function InsertByValue(l: Link, s: seq<Link>): (r: seq<Link>)
    ensures multiset(r) == multiset(s) + multiset{l}
  {
    if s == [] || s[0].value <= l.value then [l] + s
    else
      assert s == [s[0]] + s[1..];
      [s[0]] + InsertByValue(l, s[1..])
  }

  /** A link no lighter than every link of a descending sequence can go in front of it. */
  lemma ConsSorted(x: Link, s: seq<Link>)
    requires SortedByValueDesc(s)
    requires forall y :: y in s ==> y.value <= x.value
    ensures SortedByValueDesc([x] + s)
  {
    var r := [x] + s;
    forall i, j | 0 <= i < j < |r| ensures r[i].value >= r[j].value {
      assert r[j] == s[j - 1];
      if i > 0 {
        assert r[i] == s[i - 1];
      }
    }
  }

  /** Inserting into a descending sequence keeps it descending. */
  lemma {:induction false} InsertSorted(l: Link, s: seq<Link>)
    requires SortedByValueDesc(s)
    ensures SortedByValueDesc(InsertByValue(l, s))
  {
    if s == [] || s[0].value <= l.value {
      forall y | y in s ensures y.value <= l.value {
        var j :| 0 <= j < |s| && s[j] == y;
      }
      ConsSorted(l, s);
    } else {
      var rest := InsertByValue(l, s[1..]);
      assert SortedByValueDesc(s[1..]);
      InsertSorted(l, s[1..]);
      forall x | x in rest ensures x.value <= s[0].value {
        assert x in multiset(rest);
        assert x in multiset(s[1..]) || x == l;
      }
      ConsSorted(s[0], rest);
    }
  }

  /** `sort((a, b) => b.value - a.value)`, a stable sort (insertion from the back). */
  function SortByValueDesc(s: seq<Link>): (r: seq<Link>)
    ensures multiset(r) == multiset(s)
    ensures SortedByValueDesc(r)
  {
    if s == [] then []
    else
      assert s == [s[0]] + s[1..];
      var rest := SortByValueDesc(s[1..]);
      InsertSorted(s[0], rest);
      InsertByValue(s[0], rest)
  }

  lemma {:induction false} InsertOfValue(l: Link, s: seq<Link>, v: int)
    ensures OfValue(InsertByValue(l, s), v) == if l.value == v then [l] + OfValue(s, v) else OfValue(s, v)
  {
    if s == [] || s[0].value <= l.value {
      assert ([l] + s)[1..] == s;
    } else {
      InsertOfValue(l, s[1..], v);
      assert ([s[0]] + InsertByValue(l, s[1..]))[1..] == InsertByValue(l, s[1..]);
    }
  }

  /** Stability: the links of any one value come out in the order they went in. */
  lemma {:induction false} SortStable(s: seq<Link>, v: int)
    ensures OfValue(SortByValueDesc(s), v) == OfValue(s, v)
  {
    if s != [] {
      SortStable(s[1..], v);
      InsertOfValue(s[0], SortByValueDesc(s[1..]), v);
    }
  }

  /**
   * A descending order with ties in input order is unique: any sequence that is sorted by
   * descending value and keeps the input order of every value is `SortByValueDesc(s)`.
   */
  lemma SortUnique(s: seq<Link>, r: seq<Link>)
    requires SortedByValueDesc(r)
    requires forall v :: OfValue(r, v) == OfValue(s, v)
    ensures r == SortByValueDesc(s)
  {
    var q := SortByValueDesc(s);
    forall v ensures OfValue(r, v) == OfValue(q, v) { SortStable(s, v); }
    SortedSameRunsEqual(r, q);
  }

  /** Sequences with the same runs of every value have the same elements. */
  lemma SameRunsSameElements(r: seq<Link>, q: seq<Link>)
    requires forall v :: OfValue(r, v) == OfValue(q, v)
    ensures forall x :: x in r <==> x in q
  {
    forall x ensures x in r <==> x in q {
      assert x in r <==> x in OfValue(r, x.value);
      assert x in q <==> x in OfValue(q, x.value);
    }
  }

  /** Two descending sequences with the same runs start with the same link. */
  lemma SortedSameRunsHead(r: seq<Link>, q: seq<Link>)
    requires SortedByValueDesc(r) && SortedByValueDesc(q)
    requires forall v :: OfValue(r, v) == OfValue(q, v)
    requires r != [] && q != []
    ensures r[0] == q[0]
  {
    SameRunsSameElements(r, q);
    var m := r[0].value;
    assert r[0] in q;
    var k :| 0 <= k < |q| && q[k] == r[0];
    assert q[0].value >= m;
    assert q[0] in r;
    var k' :| 0 <= k' < |r| && r[k'] == q[0];
    assert q[0].value <= m;
    assert OfValue(r, m)[0] == r[0];
    assert OfValue(q, m)[0] == q[0];
  }

  /** Removing a common first link keeps the runs equal. */
  lemma SameRunsTail(r: seq<Link>, q: seq<Link>)
    requires forall v :: OfValue(r, v) == OfValue(q, v)
    requires r != [] && q != [] && r[0] == q[0]
    ensures forall v :: OfValue(r[1..], v) == OfValue(q[1..], v)
  {
    forall v ensures OfValue(r[1..], v) == OfValue(q[1..], v) {
      if v == r[0].value {
        assert OfValue(r, v)[1..] == OfValue(r[1..], v);
        assert OfValue(q, v)[1..] == OfValue(q[1..], v);
      } else {
        assert OfValue(r, v) == OfValue(r[1..], v);
        assert OfValue(q, v) == OfValue(q[1..], v);
      }
    }
  }

  lemma {:induction false} SortedSameRunsEqual(r: seq<Link>, q: seq<Link>)
    requires SortedByValueDesc(r) && SortedByValueDesc(q)
    requires forall v :: OfValue(r, v) == OfValue(q, v)
    ensures r == q
    decreases |r|
  {
    SameRunsSameElements(r, q);
    if r != [] && q != [] {
      SortedSameRunsHead(r, q);
      SameRunsTail(r, q);
      assert SortedByValueDesc(r[1..]) && SortedByValueDesc(q[1..]);
      SortedSameRunsEqual(r[1..], q[1..]);
      assert r == [r[0]] + r[1..] && q == [q[0]] + q[1..];
    }
  }

  function Min(a: int, b: int): int
  {
    if a <= b then a else b
  }

  /** `relations.slice(0, 10)` of the sorted incident links. */
  function TopRelations(node: Node, links: seq<Link>): seq<Link>
  {
    var sorted := SortByValueDesc(IncidentLinks(links, node.id));
    sorted[..Min(MaxRelations, |sorted|)]
  }

  /** In a descending sequence nothing after position n weighs more than anything before it. */
  lemma SuffixNoHeavier(sorted: seq<Link>, n: nat)
    requires SortedByValueDesc(sorted) && n <= |sorted|
    ensures forall l, k :: l in sorted[n..] && k in sorted[..n] ==> l.value <= k.value
  {
    forall l, k | l in sorted[n..] && k in sorted[..n] ensures l.value <= k.value {
      var j :| 0 <= j < |sorted| - n && sorted[n..][j] == l;
      var i :| 0 <= i < n && sorted[..n][i] == k;
      assert sorted[i] == k && sorted[n + j] == l;
    }
  }

  /** The first n links of a sorted sequence are sorted, and none of the rest weighs more than any of them. */
  lemma SortedPrefix(sorted: seq<Link>, n: nat)
    requires SortedByValueDesc(sorted) && n <= |sorted|
    ensures SortedByValueDesc(sorted[..n])
    ensures multiset(sorted[..n]) <= multiset(sorted)
    ensures forall l, k :: l in multiset(sorted) - multiset(sorted[..n]) && k in sorted[..n] ==> l.value <= k.value
  {
    var r := sorted[..n];
    var rest := sorted[n..];
    assert sorted == r + rest;
    assert multiset(sorted) == multiset(r) + multiset(rest);
    SuffixNoHeavier(sorted, n);
    forall l | l in multiset(sorted) - multiset(r) ensures l in rest {
      assert multiset(rest)[l] > 0;
    }
  }

  lemma TopRelationsLength(node: Node, links: seq<Link>)
    ensures |TopRelations(node, links)| == Min(MaxRelations, |IncidentLinks(links, node.id)|)
  {
    var incident := IncidentLinks(links, node.id);
    assert |multiset(SortByValueDesc(incident))| == |multiset(incident)|;
  }

  /** Every shown relation is a link of the graph incident to the node. */
  lemma TopRelationsIncident(node: Node, links: seq<Link>)
    ensures forall l :: l in TopRelations(node, links) ==> l in links && Incident(l, node.id)
  {
    var sorted := SortByValueDesc(IncidentLinks(links, node.id));
    forall l | l in TopRelations(node, links) ensures l in links && Incident(l, node.id) {
      assert l in multiset(sorted);
    }
  }

  /**
   * The panel shows the node's incident links only, as many as there are but no more than ten,
   * heaviest first, and every incident link left out weighs no more than any link shown.
   */
  lemma TopRelationsSpec(node: Node, links: seq<Link>)
    ensures var r := TopRelations(node, links);
      var incident := IncidentLinks(links, node.id);
      && |r| == Min(MaxRelations, |incident|)
      && (forall l :: l in r ==> l in links && Incident(l, node.id))
      && SortedByValueDesc(r)
      && multiset(r) <= multiset(incident)
      && (forall l, k :: l in multiset(incident) - multiset(r) && k in r ==> l.value <= k.value)
      && (|incident| <= MaxRelations ==> multiset(r) == multiset(incident))
  {
    var incident := IncidentLinks(links, node.id);
    var sorted := SortByValueDesc(incident);
    SortedPrefix(sorted, Min(MaxRelations, |sorted|));
    TopRelationsIncident(node, links);
    if |incident| <= MaxRelations {
      assert sorted[..|sorted|] == sorted;
    }
  }

  /** One `<li>` of the list: the other end's id and the relation's description, else its type. */
  datatype Entry = Entry(person: string, text: string)

  /** `description || type`: a missing or empty description falls back to the type. */
  function Label(l: Link): string
  {
    if l.description.Some? && l.description.value != "" then l.description.value else l.kind
  }

  function RelationEntry(id: string, l: Link): Entry
    requires l.source.Ref? && l.target.Ref?
  {
    Entry(if l.source.node.id == id then l.target.node.id else l.source.node.id, Label(l))
  }

  /** The text parts of the info panel (the image is not modelled). */
  datatype PanelContent = PanelContent(name: string, description: string, relations: seq<Entry>)

  function InfoPanel(node: Node, links: seq<Link>): PanelContent
    requires Resolved(links)
  {
    var top := TopRelations(node, links);
    TopRelationsIncident(node, links);
    PanelContent(
      node.id,
      if node.description.Some? && node.description.value != "" then node.description.value else NoDescription,
      seq(|top|, i requires 0 <= i < |top| => RelationEntry(node.id, top[i])))
  }

  /**
   * The panel is titled with the node's id, shows its description or the placeholder, and lists
   * one entry per shown relation, in the order of `TopRelations`: entry i names the other end of
   * the i-th relation (the node itself for a self-loop) and that relation's description or type.
   */
  lemma InfoPanelSpec(node: Node, links: seq<Link>)
    requires Resolved(links)
    ensures var p := InfoPanel(node, links);
      var top := TopRelations(node, links);
      && p.name == node.id
      && (node.description.Some? && node.description.value != "" ==> p.description == node.description.value)
      && (node.description.None? || node.description.value == "" ==> p.description == NoDescription)
      && |p.relations| == |top| == Min(MaxRelations, |IncidentLinks(links, node.id)|)
      && forall i :: 0 <= i < |top| ==>
           && top[i] in links && Incident(top[i], node.id)
           && Some(p.relations[i].person) == Opposite(top[i], node.id)
           && p.relations[i].text == Label(top[i])
  {
    var top := TopRelations(node, links);
    TopRelationsIncident(node, links);
    TopRelationsLength(node, links);
    var p := InfoPanel(node, links);
    forall i | 0 <= i < |top|
      ensures top[i] in links && Incident(top[i], node.id)
      ensures Some(p.relations[i].person) == Opposite(top[i], node.id)
    {
      var l := top[i];
      assert l in top;
      assert p.relations[i] == RelationEntry(node.id, l);
    }
  }
}
