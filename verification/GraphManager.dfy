/**
 The network view built from node telemetry. Edges live under their "source->destination"
 key; every operation keeps the invariant that makes the edge list acceptable to the solvers.
 */
module GraphManager {
  import opened NetworkGraph
  import opened KShortest
  import opened Wrappers
  import PathKey

  datatype Target = Target(targetType: string, ip: string, port: int)

  datatype Link = Link(target: Target, packetLoss: real, averageLatency: real)

  datatype Telemetry = Telemetry(publicIP: string, cpuPressure: real, links: map<string, Link>)

  // ---------- Origin names ----------

  function Digits(n: nat): (s: string)
    ensures '>' !in s
  {
    if n < 10 then ["0123456789"[n]] else Digits(n / 10) + ["0123456789"[n % 10]]
  }

  /** strconv.Itoa */
  function Itoa(n: int): (s: string)
    ensures '>' !in s
  {
    if n < 0 then "-" + Digits(-n) else Digits(n)
  }

  function OriginName(t: Target): string {
    t.ip + ":" + Itoa(t.port)
  }

  lemma OriginNameProper(t: Target)
    requires ProperName(t.ip)
    ensures ProperName(OriginName(t)) && IsOrigin(OriginName(t))
  {
    var s := OriginName(t);
    assert s[|t.ip|] == ':';
    forall i: nat
      ensures !PathKey.ArrowAt(s, i)
    {
      assert !PathKey.ArrowAt(t.ip, i);
      if i + 1 < |s| && i + 1 > |t.ip| {
        assert s[i + 1] == Itoa(t.port)[i - |t.ip|];
      }
    }
  }

  /** An ip:port destination. */
  ghost predicate IsOrigin(n: Node) {
    ':' in n
  }

  // ---------- The manager ----------

  class Manager {
    var nodes: map<string, Telemetry>
    var edges: map<string, Edge>
    /** The risk assessment of a link from CPU pressure, loss and latency. */
    const risk: (real, real, real) -> real

    /** What is known about one stored edge. */
    ghost predicate EdgeOk(k: string, e: Edge)
      reads this
    {
      && k == EdgeKey(e.source, e.destination)
      && e.source in nodes && (e.destination in nodes || IsOrigin(e.destination))
      && ProperName(e.source) && ProperName(e.destination)
      && e.weight >= 0.0 && e.latency >= 0.0
    }

    ghost predicate Valid()
      reads this
    {
      && (forall a, b, c :: risk(a, b, c) >= 0.0)
      && (forall n :: n in nodes ==> ProperName(n))
      && (forall k :: k in edges ==> EdgeOk(k, edges[k]))
    }

    constructor (risk: (real, real, real) -> real)
      requires forall a, b, c :: risk(a, b, c) >= 0.0
      ensures Valid() && nodes == map[] && edges == map[]
    {
      this.risk := risk;
      nodes, edges := map[], map[];
    }

    predicate Touches(e: Edge, id: string) {
      e.source == id || e.destination == id
    }

    /** The edges that do not touch the node. */
    ghost function Apart(es: map<string, Edge>, id: string): map<string, Edge> {
      map k | k in es && !Touches(es[k], id) :: es[k]
    }

    method DropEdges(id: string)
      modifies this`edges
      ensures edges == Apart(old(edges), id)
    {
      var rest := edges.Keys;
      while rest != {}
        invariant rest <= old(edges).Keys
        invariant edges ==
                    map k | k in old(edges) && (k in rest || !Touches(old(edges)[k], id)) :: old(edges)[k]
        decreases rest
      {
        var k :| k in rest;
        rest := rest - {k};
        if Touches(edges[k], id) {
          edges := edges - {k};
        }
      }
    }

    /** Afterwards no edge touches the node, and all others are as before. */
    method RemoveNode(id: string)
      requires Valid()
      modifies this`nodes, this`edges
      ensures Valid() && nodes == old(nodes) - {id} && edges == Apart(old(edges), id)
    {
      nodes := nodes - {id};
      DropEdges(id);
      forall k | k in edges
        ensures EdgeOk(k, edges[k])
      {
        assert k in old(edges) && old(EdgeOk(k, edges[k]));
      }
    }

    /** The destination a link leads to, if it is an origin or a known node. */
    function LinkEnd(l: Link): Option<Node>
      reads this`nodes
    {
      if l.target.targetType == "source" then Some(OriginName(l.target))
      else if l.target.ip in nodes then Some(l.target.ip) else None
    }

    function LinkPressure(l: Link): real
      reads this`nodes
    {
      if l.target.targetType == "source" then 0.0
      else if l.target.ip in nodes then nodes[l.target.ip].cpuPressure else 0.0
    }

    function RiskOf(l: Link): real
      reads this`nodes
    {
      risk(LinkPressure(l), l.packetLoss, l.averageLatency)
    }

    /** The edge under k after the link that names it. */
    function Renewed(ip: string, l: Link, es: map<string, Edge>, k: string, out: Node): Edge
      reads this`nodes
    {
      if k in es then es[k].(weight := RiskOf(l)) else Edge(ip, out, RiskOf(l), LinkPressure(l), l.averageLatency)
    }

    /** The edges after one link of the node. */
    function WithLink(ip: string, l: Link, es: map<string, Edge>): map<string, Edge>
      reads this`nodes
    {
      match LinkEnd(l)
      case None => es
      case Some(out) => es[EdgeKey(ip, out) := Renewed(ip, l, es, EdgeKey(ip, out), out)]
    }

    /** Records one link of a known node: a known edge gets a new weight, an unknown one is added. */
    method AddLink(ip: string, l: Link)
      requires Valid() && ip in nodes && ProperName(l.target.ip) && l.averageLatency >= 0.0
      modifies this`edges
      ensures Valid()
      ensures edges == WithLink(ip, l, old(edges))
    {
      var end := LinkEnd(l);
      if end.None? {
        return;
      }
      if l.target.targetType == "source" {
        OriginNameProper(l.target);
      }
      var out := end.value;
      var k := EdgeKey(ip, out);
      var w := risk(LinkPressure(l), l.packetLoss, l.averageLatency);
      if k in edges {
        edges := edges[k := edges[k].(weight := w)];
      } else {
        edges := edges[k := Edge(ip, out, w, LinkPressure(l), l.averageLatency)];
      }
    }

    /** The link x of the node leads to the edge with key k. */
    ghost predicate Names(node: Telemetry, x: string, k: string)
      reads this`nodes
    {
      x in node.links && LinkEnd(node.links[x]).Some? && k == EdgeKey(node.publicIP, LinkEnd(node.links[x]).value)
    }

    /** A new edge starts at the node and has the link's end, pressure and latency. */
    ghost predicate Describes(node: Telemetry, x: string, k: string, e: Edge)
      reads this`nodes
    {
      && Names(node, x, k)
      && var l := node.links[x];
         && e.source == node.publicIP && LinkEnd(l) == Some(e.destination)
         && e.load == LinkPressure(l) && e.latency == l.averageLatency
    }

    ghost predicate Weighs(node: Telemetry, x: string, k: string, e: Edge)
      reads this`nodes
    {
      Names(node, x, k) && e.weight == RiskOf(node.links[x])
    }

    /**
     What recording the links outside `rest` makes of the edge under k: one that no link names is as
     before; otherwise its weight is the risk of one of those links, and the rest of it is as
     before or, if it is new, what one of those links describes.
     */
    ghost predicate Recorded(node: Telemetry, before: map<string, Edge>, rest: set<string>, k: string, e: Edge)
      reads this`nodes
    {
      if exists x :: x !in rest && Names(node, x, k)
      then && (exists x :: x !in rest && Weighs(node, x, k, e))
           && (if k in before then e == before[k].(weight := e.weight)
               else exists x :: x !in rest && Describes(node, x, k, e))
      else k in before && e == before[k]
    }

    lemma RecordOne(node: Telemetry, before: map<string, Edge>, rest: set<string>, x: string, k: string,
                    es: map<string, Edge>)
      requires x in rest && x in node.links
      requires k in es ==> Recorded(node, before, rest, k, es[k])
      requires k !in es ==> k !in before
      ensures k in es && !Names(node, x, k) ==> Recorded(node, before, rest - {x}, k, es[k])
      ensures Names(node, x, k) ==>
                var e := Renewed(node.publicIP, node.links[x], es, k, LinkEnd(node.links[x]).value);
                Recorded(node, before, rest - {x}, k, e)
    {
      if Names(node, x, k) {
        var l := node.links[x];
        var e := Renewed(node.publicIP, l, es, k, LinkEnd(l).value);
        assert x !in rest - {x} && Weighs(node, x, k, e);
        if k !in before {
          if k in es {
            var y :| y !in rest && Describes(node, y, k, es[k]);
            assert y !in rest - {x} && Describes(node, y, k, e);
          } else {
            assert Describes(node, x, k, e);
          }
        }
      }
    }

    /** The edges after recording the links outside `rest`. */
    ghost predicate Recording(node: Telemetry, before: map<string, Edge>, rest: set<string>, es: map<string, Edge>)
      reads this`nodes
    {
      && (forall k :: k in es <==> k in before || exists x :: x !in rest && Names(node, x, k))
      && (forall k :: k in es ==> Recorded(node, before, rest, k, es[k]))
    }

    lemma RecordingKeys(node: Telemetry, before: map<string, Edge>, rest: set<string>, x: string, es: map<string,
                        Edge>, k: string)
      requires x in rest && x in node.links && Recording(node, before, rest, es)
      ensures k in WithLink(node.publicIP, node.links[x], es) <==>
                k in before || exists y :: y !in rest - {x} && Names(node, y, k)
    {
      if k in es && k !in before {
        var y :| y !in rest && Names(node, y, k);
        assert y !in rest - {x};
      }
      if Names(node, x, k) {
        assert x !in rest - {x};
      }
    }

    lemma RecordingStep(node: Telemetry, before: map<string, Edge>, rest: set<string>, x: string, es: map<string, Edge>)
      requires x in rest && x in node.links && Recording(node, before, rest, es)
      ensures Recording(node, before, rest - {x}, WithLink(node.publicIP, node.links[x], es))
    {
      forall k {
        RecordingKeys(node, before, rest, x, es, k);
      }
      forall k {
        RecordOne(node, before, rest, x, k, es);
      }
    }

    lemma RecordingStart(node: Telemetry, before: map<string, Edge>)
      ensures Recording(node, before, node.links.Keys, before)
    {
    }

    /** The node is known afterwards, and exactly its links to origins and known nodes are recorded. */
    method AddNode(node: Telemetry)
      requires Valid() && ProperName(node.publicIP)
      requires forall x :: x in node.links ==>
                 ProperName(node.links[x].target.ip) && node.links[x].averageLatency >= 0.0
      modifies this`nodes, this`edges
      ensures Valid() && nodes == old(nodes)[node.publicIP := node]
      ensures Recording(node, old(edges), {}, edges)
    {
      nodes := nodes[node.publicIP := node];
      var rest := node.links.Keys;
      RecordingStart(node, edges);
      while rest != {}
        invariant rest <= node.links.Keys && Valid() && nodes == old(nodes)[node.publicIP := node]
        invariant Recording(node, old(edges), rest, edges)
        decreases rest
      {
        var x :| x in rest;
        RecordingStep(node, old(edges), rest, x, edges);
        rest := rest - {x};
        AddLink(node.publicIP, node.links[x]);
      }
    }

    /** The listed edges are what the solvers require: proper names and at most one edge per pair of endpoints. */
    method GetEdges() returns (list: seq<Edge>)
      requires Valid()
      ensures forall e :: e in list <==> exists k :: k in edges && edges[k] == e
      ensures |list| == |edges|
      ensures GoodEdges(list) && NonNegativeEdges(list, ByWeight) && NonNegativeEdges(list, ByLatency)
    {
      list := [];
      var rest := edges.Keys;
      while rest != {}
        invariant rest <= edges.Keys && |list| + |rest| == |edges|
        invariant forall e :: e in list <==> exists k :: k in edges && k !in rest && edges[k] == e
        decreases rest
      {
        var k :| k in rest;
        rest := rest - {k};
        list := list + [edges[k]];
      }
      ListedIsGood(list);
    }

    lemma ListedIsGood(list: seq<Edge>)
      requires Valid() && forall e :: e in list ==> exists k :: k in edges && edges[k] == e
      ensures GoodEdges(list) && NonNegativeEdges(list, ByWeight) && NonNegativeEdges(list, ByLatency)
    {
      forall e | e in list
        ensures EdgeKey(e.source, e.destination) in edges && edges[EdgeKey(e.source, e.destination)] == e
        ensures ProperName(e.source) && ProperName(e.destination) && e.weight >= 0.0 && e.latency >= 0.0
      {
        var k :| k in edges && edges[k] == e;
        assert EdgeOk(k, e);
      }
    }
  }
}
