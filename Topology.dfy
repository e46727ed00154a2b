/** The k-ary fat-tree: its switches and hosts, its links, and the loops that wire them. */
module Topology {
  import opened Arith

  datatype Layer = Core | Aggregation | Edge | Host

  /** A switch or host, identified by its layer and its position in that layer's list. */
  datatype Node = Node(layer: Layer, index: nat)

  /** An undirected link, stored with its end points in a fixed order (see MakeLink). */
  datatype Link = Link(lo: Node, hi: Node)

  datatype Graph = Graph(nodes: set<Node>, links: set<Link>)

  function Rank(layer: Layer): nat
  {
    match layer
    case Core => 0
    case Aggregation => 1
    case Edge => 2
    case Host => 3
  }

  /** The total order on nodes that normalises links: by layer, then by index. */
  predicate Precedes(u: Node, v: Node)
  {
    Rank(u.layer) < Rank(v.layer) || (u.layer == v.layer && u.index <= v.index)
  }

  predicate Normalised(l: Link)
  {
    Precedes(l.lo, l.hi)
  }

  /** The link between u and v, its end points sorted. */
  function MakeLink(u: Node, v: Node): (l: Link)
    ensures Normalised(l)
    ensures (l.lo == u && l.hi == v) || (l.lo == v && l.hi == u)
  {
    if Precedes(u, v) then Link(u, v) else Link(v, u)
  }

  /** Both directions of traversal give the same link. */
  lemma MakeLinkSymmetric(u: Node, v: Node)
    ensures MakeLink(u, v) == MakeLink(v, u)
  {
  }

  /** A normalised link is its own normal form, whichever way round it is traversed. */
  lemma MakeLinkCanonical(l: Link)
    requires Normalised(l)
    ensures MakeLink(l.lo, l.hi) == l && MakeLink(l.hi, l.lo) == l
  {
  }

  /** The nodes joined to n by a link of `links`. */
  function Neighbours(links: set<Link>, n: Node): set<Node>
  {
    set l | l in links && (l.lo == n || l.hi == n) :: if l.lo == n then l.hi else l.lo
  }

  function Degree(g: Graph, n: Node): nat
  {
    |Neighbours(g.links, n)|
  }

  function LayerOf(nodes: set<Node>, layer: Layer): set<Node>
  {
    set n | n in nodes && n.layer == layer
  }

  // ----- layer sizes (lines 16-19); Python's k // 2 is Dafny's k / 2, and range(n)
  // ----- of a negative n is empty

  function Half(k: int): int
  {
    k / 2
  }

  function Count(n: int): nat
  {
    if n < 0 then 0 else n
  }

  function CoreCount(k: int): nat
  {
    Count(Half(k) * Half(k))
  }

  /** The number of aggregation switches, which is also the number of edge switches. */
  function PodSwitchCount(k: int): nat
  {
    Count(k * Half(k))
  }

  function HostCount(k: int): nat
  {
    Count(k * k * k / 4)
  }

  /** The list of the first n nodes of a layer. */
  function LayerList(layer: Layer, n: nat): seq<Node>
  {
    seq(n, i requires 0 <= i < n => Node(layer, i))
  }

  function LayerSet(layer: Layer, n: nat): set<Node>
  {
    set i: nat | i < n :: Node(layer, i)
  }

  function FatTreeNodes(k: int): set<Node>
  {
    LayerSet(Core, CoreCount(k)) + LayerSet(Aggregation, PodSwitchCount(k))
    + LayerSet(Edge, PodSwitchCount(k)) + LayerSet(Host, HostCount(k))
  }

  // ----- the links, in the shape of the loops that add them

  /** The aggregation switch that core switch i reaches in pod `pod` (line 29). */
  function Uplink(k: int, i: nat, pod: nat): nat
    requires i < CoreCount(k) && pod < k
  {
    pod * Half(k) + i / Half(k)
  }

  /** Core-aggregation links of core switch i towards the pods below `pods`. */
  ghost function CoreRow(k: int, i: nat, pods: nat): set<Link>
    requires i < CoreCount(k)
  {
    set pod: nat | pod < pods && pod < k :: Link(Node(Core, i), Node(Aggregation, Uplink(k, i, pod)))
  }

  /** Core-aggregation links of the core switches below `rows` (lines 27-30). */
  ghost function CoreLinks(k: int, rows: nat): set<Link>
  {
    set i: nat, pod: nat | i < rows && i < CoreCount(k) && pod < k
      :: Link(Node(Core, i), Node(Aggregation, Uplink(k, i, pod)))
  }

  /** The first index of pod `pod`'s aggregation and edge switches. */
  function PodStart(k: int, pod: nat): nat
    requires pod < k
  {
    pod * Half(k)
  }

  /** Aggregation-edge links from switch a of pod `pod` to that pod's edge switches below eEnd. */
  ghost function PodCell(k: int, pod: nat, a: nat, eEnd: int): set<Link>
    requires pod < k
  {
    set e: nat | PodStart(k, pod) <= e < eEnd :: Link(Node(Aggregation, a), Node(Edge, e))
  }

  /** Aggregation-edge links of pod `pod` from its aggregation switches below aEnd. */
  ghost function PodRows(k: int, pod: nat, aEnd: int): set<Link>
    requires pod < k
  {
    set a: nat, e: nat | PodStart(k, pod) <= a < aEnd && PodStart(k, pod) <= e < PodStart(k, pod) + Half(k)
      :: Link(Node(Aggregation, a), Node(Edge, e))
  }

  /** Aggregation-edge links of the pods below `pods` (lines 33-36): every aggregation
      switch is linked to every edge switch of its own pod, pod p holding the switches
      p * (k / 2) up to (p + 1) * (k / 2) - 1. */
  ghost function PodLinks(k: int, pods: nat): set<Link>
  {
    if Half(k) <= 0 then {}
    else
      var bound := (if pods < k then pods else Count(k)) * Half(k);
      set a: nat, e: nat | a < bound && e < bound && a / Half(k) == e / Half(k)
        :: Link(Node(Aggregation, a), Node(Edge, e))
  }

  /** The host that the running counter reaches at the j-th host of edge switch e. */
  function HostIndex(k: int, e: nat, j: nat): nat
    requires j < Half(k)
  {
    e * Half(k) + j
  }

  /** Edge-host links of edge switch e for its hosts below jEnd. */
  ghost function HostRow(k: int, e: nat, jEnd: int): set<Link>
  {
    set j: nat | j < jEnd && j < Half(k) :: Link(Node(Edge, e), Node(Host, HostIndex(k, e, j)))
  }

  /** Edge-host links of the edge switches below `rows` (lines 39-43). */
  ghost function HostLinks(k: int, rows: nat): set<Link>
  {
    set e: nat, j: nat | e < rows && e < PodSwitchCount(k) && j < Half(k)
      :: Link(Node(Edge, e), Node(Host, HostIndex(k, e, j)))
  }

  ghost function FatTreeLinks(k: int): set<Link>
  {
    CoreLinks(k, CoreCount(k)) + PodLinks(k, Count(k)) + HostLinks(k, PodSwitchCount(k))
  }

  ghost function FatTree(k: int): Graph
  {
    Graph(FatTreeNodes(k), FatTreeLinks(k))
  }

  // ----- bounds of the indices the loops use

  lemma UplinkInRange(k: int, i: nat, pod: nat)
    requires i < CoreCount(k) && pod < k
    ensures Half(k) > 0
    ensures Uplink(k, i, pod) < PodSwitchCount(k)
    ensures Uplink(k, i, pod) / Half(k) == pod && Uplink(k, i, pod) % Half(k) == i / Half(k)
  {
    var h := Half(k);
    assert h > 0;
    if i / h >= h {
      MulMonotone(h, i / h, h);
      assert false;
    }
    BlockBelow(pod, i / h, h, k);
    DivModUnique(Uplink(k, i, pod), h, pod, i / h);
  }

  lemma PodSwitchInRange(k: int, pod: nat, x: int)
    requires pod < k && pod * Half(k) <= x < (pod + 1) * Half(k)
    ensures 0 <= x < PodSwitchCount(k)
    ensures x / Half(k) == pod
  {
    var h := Half(k);
    MulMonotone(pod + 1, k, h);
    DivModUnique(x, h, pod, x - pod * h);
  }

  lemma HostInRange(k: int, e: nat, j: nat)
    requires e < PodSwitchCount(k) && j < Half(k)
    ensures HostIndex(k, e, j) < HostCount(k)
    ensures HostIndex(k, e, j) / Half(k) == e
  {
    var h := Half(k);
    BlockBelow(e, j, h, PodSwitchCount(k));
    HostsFitInLayer(k);
    DivModUnique(HostIndex(k, e, j), h, e, j);
  }

  /** Wiring k / 2 hosts to each of the k * (k / 2) edge switches never runs past the
      host list, even for odd k. */
  lemma HostsFitInLayer(k: int)
    requires Half(k) > 0
    ensures PodSwitchCount(k) * Half(k) <= HostCount(k)
  {
    var h := Half(k);
    assert 2 * h <= k;
    MulMonotone(2 * h, k, 2 * h);
    MulMonotone(2 * h, k, k);
    assert 4 * (h * h) <= k * k;
    MulMonotone(4 * (h * h), k * k, k);
    assert 4 * (k * h * h) <= k * k * k;
    assert PodSwitchCount(k) * h == k * h * h;
  }

  // ----- construction (lines 13-45), one method per wiring loop

  /** Lines 27-30: core switch i joins aggregation switch pod * (k / 2) + i / (k / 2) of every pod. */
  method WireCoreToAggregation(k: int, core: seq<Node>, agg: seq<Node>, links: set<Link>)
    returns (links': set<Link>)
    requires core == LayerList(Core, CoreCount(k)) && agg == LayerList(Aggregation, PodSwitchCount(k))
    ensures links' == links + CoreLinks(k, CoreCount(k))
  {
    var half := k / 2;
    links' := links;
    var i := 0;
    while i < |core|
      invariant i <= |core|
      invariant links' == links + CoreLinks(k, i)
    {
      var pod := 0;
      while pod < k
        invariant 0 <= pod
        invariant links' == links + CoreLinks(k, i) + CoreRow(k, i, pod)
      {
        UplinkInRange(k, i, pod);
        links' := links' + {MakeLink(core[i], agg[pod * half + i / half])};
        pod := pod + 1;
      }
      assert CoreLinks(k, i) + CoreRow(k, i, pod) == CoreLinks(k, i + 1);
      i := i + 1;
    }
  }

  /** Lines 33-36: inside every pod, every aggregation switch joins every edge switch. */
  method WireAggregationToEdge(k: int, agg: seq<Node>, edge: seq<Node>, links: set<Link>)
    returns (links': set<Link>)
    requires agg == LayerList(Aggregation, PodSwitchCount(k)) && edge == LayerList(Edge, PodSwitchCount(k))
    ensures links' == links + PodLinks(k, Count(k))
  {
    var half := k / 2;
    links' := links;
    var pod := 0;
    while pod < k
      invariant 0 <= pod
      invariant links' == links + PodLinks(k, pod)
    {
      assert (pod + 1) * half == PodStart(k, pod) + half && half >= 0;
      var a := pod * half;
      while a < (pod + 1) * half
        invariant PodStart(k, pod) <= a <= (pod + 1) * half
        invariant links' == links + PodLinks(k, pod) + PodRows(k, pod, a)
      {
        var e := pod * half;
        while e < (pod + 1) * half
          invariant PodStart(k, pod) <= e <= (pod + 1) * half
          invariant links' == links + PodLinks(k, pod) + PodRows(k, pod, a) + PodCell(k, pod, a, e)
        {
          PodSwitchInRange(k, pod, a);
          PodSwitchInRange(k, pod, e);
          PodCellStep(k, pod, a, e);
          links' := links' + {MakeLink(agg[a], edge[e])};
          e := e + 1;
        }
        PodRowsStep(k, pod, a);
        a := a + 1;
      }
      PodLinksStep(k, pod);
      pod := pod + 1;
    }
  }

  /** Lines 39-43: edge switches take k / 2 hosts each, in order, from the running
      counter h; h stays inside the host list. */
  method WireEdgeToHosts(k: int, edge: seq<Node>, hosts: seq<Node>, links: set<Link>)
    returns (links': set<Link>)
    requires edge == LayerList(Edge, PodSwitchCount(k)) && hosts == LayerList(Host, HostCount(k))
    ensures links' == links + HostLinks(k, PodSwitchCount(k))
  {
    var half := k / 2;
    links' := links;
    var h := 0;
    var e := 0;
    while e < |edge|
      invariant e <= |edge|
      invariant h == e * Count(half)
      invariant links' == links + HostLinks(k, e)
    {
      var j := 0;
      while j < half
        invariant j <= Count(half)
        invariant h == e * Count(half) + j
        invariant links' == links + HostLinks(k, e) + HostRow(k, e, j)
      {
        HostInRange(k, e, j);
        HostRowStep(k, e, j);
        links' := links' + {MakeLink(edge[e], hosts[h])};
        h := h + 1;
        j := j + 1;
      }
      HostLinksStep(k, e, j);
      assert h == (e + 1) * Count(half);
      e := e + 1;
    }
  }

  /** generate_fat_tree: the four layer lists, then the three wiring loops. The
      fan-out defaults to 4, as in the source. */
  method GenerateFatTree(k: int := 4) returns (g: Graph)
    ensures g == FatTree(k)
  {
    var core := LayerList(Core, CoreCount(k));
    var agg := LayerList(Aggregation, PodSwitchCount(k));
    var edge := LayerList(Edge, PodSwitchCount(k));
    var hosts := LayerList(Host, HostCount(k));
    var nodes := (set c | c in core) + (set a | a in agg) + (set e | e in edge) + (set x | x in hosts);
    LayerListElements(Core, CoreCount(k));
    LayerListElements(Aggregation, PodSwitchCount(k));
    LayerListElements(Edge, PodSwitchCount(k));
    LayerListElements(Host, HostCount(k));
    var links := WireCoreToAggregation(k, core, agg, {});
    links := WireAggregationToEdge(k, agg, edge, links);
    links := WireEdgeToHosts(k, edge, hosts, links);
    g := Graph(nodes, links);
  }

  lemma LayerListElements(layer: Layer, n: nat)
    ensures (set x | x in LayerList(layer, n)) == LayerSet(layer, n)
  {
    var s := LayerList(layer, n);
    forall x | x in LayerSet(layer, n) ensures x in s {
      assert s[x.index] == x;
    }
  }

  /** Finishing pod `pod` extends the pods done so far by exactly that pod's block. */
  lemma PodLinksStep(k: int, pod: nat)
    requires pod < k
    ensures PodLinks(k, pod) + PodRows(k, pod, (pod + 1) * Half(k)) == PodLinks(k, pod + 1)
  {
    var h := Half(k);
    if h > 0 {
      var lhs := PodLinks(k, pod) + PodRows(k, pod, (pod + 1) * h);
      forall l | l in lhs ensures l in PodLinks(k, pod + 1) {
        if l in PodLinks(k, pod) {
          var a: nat, e: nat :| a < pod * h && e < pod * h && a / h == e / h
            && l == Link(Node(Aggregation, a), Node(Edge, e));
          MulMonotone(pod, pod + 1, h);
        } else {
          var a: nat, e: nat :| pod * h <= a < (pod + 1) * h && pod * h <= e < (pod + 1) * h
            && l == Link(Node(Aggregation, a), Node(Edge, e));
          PodSwitchInRange(k, pod, a);
          PodSwitchInRange(k, pod, e);
        }
      }
      forall l | l in PodLinks(k, pod + 1) ensures l in lhs {
        var a: nat, e: nat :| a < (pod + 1) * h && e < (pod + 1) * h && a / h == e / h
          && l == Link(Node(Aggregation, a), Node(Edge, e));
        if a / h < pod {
          SameBlockBelow(a, e, h, pod);
          assert l in PodLinks(k, pod);
        } else {
          SameBlockAt(a, e, h, pod);
          assert l in PodRows(k, pod, (pod + 1) * h);
        }
      }
    }
  }

  /** Two numbers of one block of size h, that block below `pod`, are both below pod * h. */
  lemma SameBlockBelow(a: nat, e: nat, h: int, pod: nat)
    requires h > 0 && a / h == e / h && a / h < pod
    ensures a < pod * h && e < pod * h
  {
    BlockBelow(a / h, a % h, h, pod);
    BlockBelow(e / h, e % h, h, pod);
  }

  /** Two numbers below (pod + 1) * h in one block that is not below `pod` lie in block `pod`. */
  lemma SameBlockAt(a: nat, e: nat, h: int, pod: nat)
    requires h > 0 && a < (pod + 1) * h && e < (pod + 1) * h && a / h == e / h && pod <= a / h
    ensures pod * h <= a < (pod + 1) * h && pod * h <= e < (pod + 1) * h
  {
    if a / h > pod {
      MulMonotone(pod + 1, a / h, h);
      assert false;
    }
    assert a == pod * h + a % h;
    assert e == pod * h + e % h;
  }

  lemma PodCellStep(k: int, pod: nat, a: nat, e: nat)
    requires pod < k && PodStart(k, pod) <= e
    ensures PodCell(k, pod, a, e + 1) == PodCell(k, pod, a, e) + {MakeLink(Node(Aggregation, a), Node(Edge, e))}
  {
  }

  lemma PodRowsStep(k: int, pod: nat, a: nat)
    requires pod < k && PodStart(k, pod) <= a
    ensures PodRows(k, pod, a + 1) == PodRows(k, pod, a) + PodCell(k, pod, a, PodStart(k, pod) + Half(k))
  {
  }

  lemma HostRowStep(k: int, e: nat, j: nat)
    requires j < Half(k)
    ensures HostRow(k, e, j + 1) == HostRow(k, e, j) + {MakeLink(Node(Edge, e), Node(Host, HostIndex(k, e, j)))}
  {
  }

  lemma HostLinksStep(k: int, e: nat, j: nat)
    requires e < PodSwitchCount(k) && j == Count(Half(k))
    ensures HostLinks(k, e + 1) == HostLinks(k, e) + HostRow(k, e, j)
  {
  }
}
