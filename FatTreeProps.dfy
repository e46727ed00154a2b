/** What the fat-tree wiring guarantees: layer sizes, which pairs are adjacent, degrees. */
module FatTreeProps {
  import opened Arith
  import opened Topology

  /** The fan-out values the topology is meant for: positive and even. */
  predicate ValidArity(k: int)
  {
    k > 0 && k % 2 == 0
  }

  predicate Joins(l: Link, a: Layer, b: Layer)
  {
    l.lo.layer == a && l.hi.layer == b
  }

  // ----- the shape of every link

  /** Every link joins two adjacent layers, upper layer first; so a core switch is never
      the upper end of a link and a host is never the lower end. */
  lemma LinkShapes(k: int, l: Link)
    requires l in FatTreeLinks(k)
    ensures Joins(l, Core, Aggregation) || Joins(l, Aggregation, Edge) || Joins(l, Edge, Host)
    ensures Joins(l, Core, Aggregation) ==> l in CoreLinks(k, CoreCount(k))
    ensures Joins(l, Aggregation, Edge) ==> l in PodLinks(k, Count(k))
    ensures Joins(l, Edge, Host) ==> l in HostLinks(k, PodSwitchCount(k))
  {
    if l in CoreLinks(k, CoreCount(k)) {
    } else if l in PodLinks(k, Count(k)) {
      assert Half(k) > 0;
    } else {
    }
  }

  /** Every link ends in two nodes of the graph: the loops index nothing outside the
      node lists, whatever k is. */
  lemma LinksWithinNodes(k: int, l: Link)
    requires l in FatTreeLinks(k)
    ensures l.lo in FatTreeNodes(k) && l.hi in FatTreeNodes(k)
  {
    LinkShapes(k, l);
    if Joins(l, Core, Aggregation) {
      var i: nat, pod: nat :| i < CoreCount(k) && pod < k
        && l == Link(Node(Core, i), Node(Aggregation, Uplink(k, i, pod)));
      UplinkInRange(k, i, pod);
      assert l.hi in LayerSet(Aggregation, PodSwitchCount(k));
    } else if Joins(l, Aggregation, Edge) {
      var h := Half(k);
      var bound := Count(k) * h;
      var a: nat, e: nat :| a < bound && e < bound && a / h == e / h
        && l == Link(Node(Aggregation, a), Node(Edge, e));
      assert l.lo in LayerSet(Aggregation, PodSwitchCount(k));
      assert l.hi in LayerSet(Edge, PodSwitchCount(k));
    } else {
      var e: nat, j: nat :| e < PodSwitchCount(k) && j < Half(k)
        && l == Link(Node(Edge, e), Node(Host, HostIndex(k, e, j)));
      HostInRange(k, e, j);
      assert l.lo in LayerSet(Edge, PodSwitchCount(k));
      assert l.hi in LayerSet(Host, HostCount(k));
    }
  }

  // ----- adjacency, pair by pair

  /** Core switch i and aggregation switch a are linked exactly when a's offset inside
      its pod is i / (k / 2): one aggregation switch per pod (lines 27-30). */
  lemma CoreAggregationAdjacent(k: int, i: nat, a: nat)
    requires Half(k) > 0
    ensures Link(Node(Core, i), Node(Aggregation, a)) in FatTreeLinks(k)
        <==> i < CoreCount(k) && a < PodSwitchCount(k) && a % Half(k) == i / Half(k)
  {
    var l := Link(Node(Core, i), Node(Aggregation, a));
    if l in FatTreeLinks(k) {
      LinkShapes(k, l);
      var i': nat, pod: nat :| i' < CoreCount(k) && pod < k
        && l == Link(Node(Core, i'), Node(Aggregation, Uplink(k, i', pod)));
      UplinkInRange(k, i', pod);
    }
    if i < CoreCount(k) && a < PodSwitchCount(k) && a % Half(k) == i / Half(k) {
      UplinkReaches(k, i, a);
    }
  }

  /** The converse half of CoreAggregationAdjacent: the right offset is reached by the
      pod a / (k / 2). */
  lemma UplinkReaches(k: int, i: nat, a: nat)
    requires Half(k) > 0
    requires i < CoreCount(k) && a < PodSwitchCount(k) && a % Half(k) == i / Half(k)
    ensures Link(Node(Core, i), Node(Aggregation, a)) in CoreLinks(k, CoreCount(k))
  {
    var h := Half(k);
    var pod := a / h;
    if pod >= k {
      MulMonotone(k, pod, h);
      DivMod(a, h);
      assert false;
    }
    DivMod(a, h);
    assert Uplink(k, i, pod) == a;
  }

  /** Aggregation switch a and edge switch e are linked exactly when they lie in the
      same pod: a complete bipartite graph inside each pod and nothing across pods
      (lines 33-36). */
  lemma AggregationEdgeAdjacent(k: int, a: nat, e: nat)
    requires Half(k) > 0
    ensures Link(Node(Aggregation, a), Node(Edge, e)) in FatTreeLinks(k)
        <==> a < PodSwitchCount(k) && e < PodSwitchCount(k) && a / Half(k) == e / Half(k)
  {
    var l := Link(Node(Aggregation, a), Node(Edge, e));
    if l in FatTreeLinks(k) {
      LinkShapes(k, l);
    }
  }

  /** Edge switch e and host x are linked exactly when x is one of the k / 2 hosts of
      e's block, that is x / (k / 2) == e (lines 39-43). */
  lemma EdgeHostAdjacent(k: int, e: nat, x: nat)
    requires Half(k) > 0
    ensures Link(Node(Edge, e), Node(Host, x)) in FatTreeLinks(k)
        <==> x < PodSwitchCount(k) * Half(k) && x / Half(k) == e
  {
    var l := Link(Node(Edge, e), Node(Host, x));
    if l in FatTreeLinks(k) {
      LinkShapes(k, l);
      var e': nat, j: nat :| e' < PodSwitchCount(k) && j < Half(k)
        && l == Link(Node(Edge, e'), Node(Host, HostIndex(k, e', j)));
      HostInRange(k, e', j);
      BlockBelow(e', j, Half(k), PodSwitchCount(k));
    }
    if x < PodSwitchCount(k) * Half(k) && x / Half(k) == e {
      HostReached(k, e, x);
    }
  }

  /** The converse half of EdgeHostAdjacent: host x is the (x % (k / 2))-th host of its block. */
  lemma HostReached(k: int, e: nat, x: nat)
    requires Half(k) > 0
    requires x < PodSwitchCount(k) * Half(k) && x / Half(k) == e
    ensures Link(Node(Edge, e), Node(Host, x)) in HostLinks(k, PodSwitchCount(k))
  {
    var h := Half(k);
    DivMod(x, h);
    if e >= PodSwitchCount(k) {
      MulMonotone(PodSwitchCount(k), e, h);
      assert false;
    }
    assert HostIndex(k, e, x % h) == x;
  }

  /** x is a neighbour of n exactly when a stored link joins them, in either order. */
  lemma NeighbourIff(links: set<Link>, n: Node, x: Node)
    ensures x in Neighbours(links, n) <==> Link(n, x) in links || Link(x, n) in links
  {
    if Link(n, x) in links {
      var l := Link(n, x);
      assert (if l.lo == n then l.hi else l.lo) == x;
    } else if Link(x, n) in links {
      var l := Link(x, n);
      assert (if l.lo == n then l.hi else l.lo) == x;
    }
  }

  // ----- sizes and degrees for a positive even fan-out

  /** For even k the layer sizes are exact: (k/2)^2 core, k(k/2) aggregation and edge
      switches, k^3/4 hosts, and k/2 hosts per edge switch uses up every host. */
  lemma ArityFacts(k: int)
    requires ValidArity(k)
    ensures k == 2 * Half(k) && Half(k) > 0
    ensures CoreCount(k) == Half(k) * Half(k)
    ensures PodSwitchCount(k) == k * Half(k)
    ensures HostCount(k) == k * k * k / 4 == PodSwitchCount(k) * Half(k)
  {
    PodFacts(k);
    var h := Half(k);
    assert k * k * k == 4 * (k * h * h);
  }

  /** The switch layers' part of ArityFacts, without the host count; the adjacency
      proofs need only this part and stay cheaper without the cubic term. */
  lemma PodFacts(k: int)
    requires ValidArity(k)
    ensures Half(k) > 0 && k == 2 * Half(k)
    ensures CoreCount(k) == Half(k) * Half(k) && PodSwitchCount(k) == k * Half(k)
  {
  }

  lemma LayerSetSize(layer: Layer, n: nat)
    ensures |LayerSet(layer, n)| == n
  {
    var f := (i: nat) => Node(layer, i);
    forall x | x in LayerSet(layer, n) ensures exists i: nat :: i < n && f(i) == x {
      assert f(x.index) == x;
    }
    ImageSetSize(f, n, LayerSet(layer, n));
  }

  /** Lines 16-19: the number of nodes in each layer. */
  lemma LayerSizes(k: int)
    requires ValidArity(k)
    ensures |LayerOf(FatTree(k).nodes, Core)| == (k / 2) * (k / 2)
    ensures |LayerOf(FatTree(k).nodes, Aggregation)| == k * (k / 2)
    ensures |LayerOf(FatTree(k).nodes, Edge)| == k * (k / 2)
    ensures |LayerOf(FatTree(k).nodes, Host)| == k * k * k / 4
  {
    ArityFacts(k);
    var nodes := FatTree(k).nodes;
    assert LayerOf(nodes, Core) == LayerSet(Core, CoreCount(k));
    assert LayerOf(nodes, Aggregation) == LayerSet(Aggregation, PodSwitchCount(k));
    assert LayerOf(nodes, Edge) == LayerSet(Edge, PodSwitchCount(k));
    assert LayerOf(nodes, Host) == LayerSet(Host, HostCount(k));
    LayerSetSize(Core, CoreCount(k));
    LayerSetSize(Aggregation, PodSwitchCount(k));
    LayerSetSize(Edge, PodSwitchCount(k));
    LayerSetSize(Host, HostCount(k));
  }

  /** Core switch i has one aggregation neighbour in each of the k pods, the one at
      offset i / (k / 2), so its degree is k. */
  lemma CoreNeighbours(k: int, i: nat)
    requires ValidArity(k) && i < CoreCount(k)
    ensures Neighbours(FatTreeLinks(k), Node(Core, i))
         == set pod: nat | pod < k :: Node(Aggregation, Uplink(k, i, pod))
    ensures Degree(FatTree(k), Node(Core, i)) == k
  {
    CoreNeighbourSet(k, i);
    var h := Half(k);
    var s := set pod: nat | pod < k :: Node(Aggregation, Uplink(k, i, pod));
    var f := (pod: nat) => Node(Aggregation, pod * h + i / h);
    forall p: nat, q: nat | p < q < k ensures f(p) != f(q) {
      UplinkInRange(k, i, p);
      UplinkInRange(k, i, q);
    }
    forall x | x in s ensures exists pod: nat :: pod < k && f(pod) == x {
      var pod: nat :| pod < k && x == Node(Aggregation, Uplink(k, i, pod));
      assert f(pod) == x;
    }
    forall pod: nat | pod < k ensures f(pod) in s {
      assert f(pod) == Node(Aggregation, Uplink(k, i, pod));
    }
    ImageSetSize(f, k, s);
  }

  lemma CoreNeighbourSet(k: int, i: nat)
    requires ValidArity(k) && i < CoreCount(k)
    ensures Neighbours(FatTreeLinks(k), Node(Core, i))
         == set pod: nat | pod < k :: Node(Aggregation, Uplink(k, i, pod))
  {
    PodFacts(k);
    var h := Half(k);
    var links := FatTreeLinks(k);
    var n := Node(Core, i);
    var s := set pod: nat | pod < k :: Node(Aggregation, Uplink(k, i, pod));
    forall x | x in Neighbours(links, n) ensures x in s {
      NeighbourIff(links, n, x);
      if Link(x, n) in links {
        LinkShapes(k, Link(x, n));
        assert false;
      }
      LinkShapes(k, Link(n, x));
      CoreAggregationAdjacent(k, i, x.index);
      var pod := x.index / h;
      DivMod(x.index, h);
      if pod >= k {
        MulMonotone(k, pod, h);
        assert false;
      }
      assert x == Node(Aggregation, Uplink(k, i, pod));
    }
    forall x | x in s ensures x in Neighbours(links, n) {
      var pod: nat :| pod < k && x == Node(Aggregation, Uplink(k, i, pod));
      assert Link(n, x) in CoreLinks(k, CoreCount(k));
      NeighbourIff(links, n, x);
    }
  }

  /** Block q of a layer cut into blocks of h consecutive nodes: a pod's switches, or
      an edge switch's hosts. */
  function Block(layer: Layer, q: nat, h: nat): set<Node>
  {
    set i: nat | q * h <= i < (q + 1) * h :: Node(layer, i)
  }

  lemma BlockSize(layer: Layer, q: nat, h: nat)
    ensures |Block(layer, q, h)| == h
  {
    var f := (j: nat) => Node(layer, q * h + j);
    forall x | x in Block(layer, q, h) ensures exists j: nat :: j < h && f(j) == x {
      assert f(x.index - q * h) == x;
    }
    forall j: nat | j < h ensures f(j) in Block(layer, q, h) {
      assert q * h + j < (q + 1) * h;
    }
    ImageSetSize(f, h, Block(layer, q, h));
  }

  /** Aggregation switch a has k / 2 core neighbours (the core switches whose offset
      i / (k / 2) is a's offset in its pod) and k / 2 edge neighbours (its pod's edge
      switches), so its degree is k. */
  lemma AggregationNeighbours(k: int, a: nat)
    requires ValidArity(k) && a < PodSwitchCount(k)
    ensures Neighbours(FatTreeLinks(k), Node(Aggregation, a))
         == Block(Core, a % Half(k), Half(k)) + Block(Edge, a / Half(k), Half(k))
    ensures |LayerOf(Neighbours(FatTreeLinks(k), Node(Aggregation, a)), Core)| == k / 2
    ensures |LayerOf(Neighbours(FatTreeLinks(k), Node(Aggregation, a)), Edge)| == k / 2
    ensures Degree(FatTree(k), Node(Aggregation, a)) == k
  {
    PodFacts(k);
    var h := Half(k);
    var up := Block(Core, a % h, h);
    var down := Block(Edge, a / h, h);
    forall x ensures x in Neighbours(FatTreeLinks(k), Node(Aggregation, a)) <==> x in up + down {
      AggregationNeighbour(k, a, x);
    }
    var n := Neighbours(FatTreeLinks(k), Node(Aggregation, a));
    assert n == up + down;
    assert LayerOf(n, Core) == up;
    assert LayerOf(n, Edge) == down;
    assert up * down == {};
    BlockSize(Core, a % h, h);
    BlockSize(Edge, a / h, h);
  }

  lemma AggregationNeighbour(k: int, a: nat, x: Node)
    requires ValidArity(k) && a < PodSwitchCount(k)
    ensures x in Neighbours(FatTreeLinks(k), Node(Aggregation, a))
        <==> x in Block(Core, a % Half(k), Half(k)) + Block(Edge, a / Half(k), Half(k))
  {
    var links := FatTreeLinks(k);
    var n := Node(Aggregation, a);
    NeighbourIff(links, n, x);
    if Link(n, x) in links {
      LinkShapes(k, Link(n, x));
    }
    if Link(x, n) in links {
      LinkShapes(k, Link(x, n));
    }
    if x.layer == Core {
      AggregationUplink(k, a, x.index);
    } else if x.layer == Edge {
      AggregationDownlink(k, a, x.index);
    }
  }

  lemma AggregationUplink(k: int, a: nat, c: nat)
    requires ValidArity(k) && a < PodSwitchCount(k)
    ensures Link(Node(Core, c), Node(Aggregation, a)) in FatTreeLinks(k)
        <==> Node(Core, c) in Block(Core, a % Half(k), Half(k))
  {
    CoreAggregationAdjacent(k, c, a);
    CoreBlockOfOffset(k, a % Half(k), c);
  }

  /** Core switch c serves offset q exactly when its index lies in block q. */
  lemma CoreBlockOfOffset(k: int, q: nat, c: nat)
    requires ValidArity(k) && q < Half(k)
    ensures c < CoreCount(k) && q == c / Half(k) <==> q * Half(k) <= c < (q + 1) * Half(k)
  {
    PodFacts(k);
    var h := Half(k);
    DivMod(c, h);
    if q * h <= c < (q + 1) * h {
      BlockBelow(q, c - q * h, h, h);
      DivModUnique(c, h, q, c - q * h);
    }
  }

  lemma AggregationDownlink(k: int, a: nat, e: nat)
    requires ValidArity(k) && a < PodSwitchCount(k)
    ensures Link(Node(Aggregation, a), Node(Edge, e)) in FatTreeLinks(k)
        <==> Node(Edge, e) in Block(Edge, a / Half(k), Half(k))
  {
    AggregationEdgeAdjacent(k, a, e);
    SameBlockAsPod(k, a, e);
  }

  /** Switch e is in the pod of switch a exactly when its index lies in block a / (k / 2). */
  lemma SameBlockAsPod(k: int, a: nat, e: nat)
    requires ValidArity(k) && a < PodSwitchCount(k)
    ensures e < PodSwitchCount(k) && e / Half(k) == a / Half(k)
        <==> (a / Half(k)) * Half(k) <= e < (a / Half(k) + 1) * Half(k)
  {
    PodFacts(k);
    var h := Half(k);
    var pod := a / h;
    DivMod(e, h);
    if (a / h) * h <= e < (a / h + 1) * h {
      if pod >= k {
        DivMod(a, h);
        MulMonotone(k, pod, h);
        assert false;
      }
      BlockBelow(pod, e - pod * h, h, k);
      DivModUnique(e, h, pod, e - pod * h);
    }
  }

  /** Edge switch e has the k / 2 aggregation switches of its pod above it and its k / 2
      hosts below it, so its degree is k. */
  lemma EdgeNeighbours(k: int, e: nat)
    requires ValidArity(k) && e < PodSwitchCount(k)
    ensures Neighbours(FatTreeLinks(k), Node(Edge, e))
         == Block(Aggregation, e / Half(k), Half(k)) + Block(Host, e, Half(k))
    ensures |LayerOf(Neighbours(FatTreeLinks(k), Node(Edge, e)), Aggregation)| == k / 2
    ensures |LayerOf(Neighbours(FatTreeLinks(k), Node(Edge, e)), Host)| == k / 2
    ensures Degree(FatTree(k), Node(Edge, e)) == k
  {
    PodFacts(k);
    var h := Half(k);
    var up := Block(Aggregation, e / h, h);
    var down := Block(Host, e, h);
    forall x ensures x in Neighbours(FatTreeLinks(k), Node(Edge, e)) <==> x in up + down {
      EdgeNeighbour(k, e, x);
    }
    var n := Neighbours(FatTreeLinks(k), Node(Edge, e));
    assert n == up + down;
    assert LayerOf(n, Aggregation) == up;
    assert LayerOf(n, Host) == down;
    assert up * down == {};
    BlockSize(Aggregation, e / h, h);
    BlockSize(Host, e, h);
  }

  lemma EdgeNeighbour(k: int, e: nat, x: Node)
    requires ValidArity(k) && e < PodSwitchCount(k)
    ensures x in Neighbours(FatTreeLinks(k), Node(Edge, e))
        <==> x in Block(Aggregation, e / Half(k), Half(k)) + Block(Host, e, Half(k))
  {
    var links := FatTreeLinks(k);
    var n := Node(Edge, e);
    NeighbourIff(links, n, x);
    if Link(n, x) in links {
      LinkShapes(k, Link(n, x));
    }
    if Link(x, n) in links {
      LinkShapes(k, Link(x, n));
    }
    if x.layer == Aggregation {
      EdgeUplink(k, e, x.index);
    } else if x.layer == Host {
      EdgeDownlink(k, e, x.index);
    }
  }

  lemma EdgeUplink(k: int, e: nat, a: nat)
    requires ValidArity(k) && e < PodSwitchCount(k)
    ensures Link(Node(Aggregation, a), Node(Edge, e)) in FatTreeLinks(k)
        <==> Node(Aggregation, a) in Block(Aggregation, e / Half(k), Half(k))
  {
    AggregationEdgeAdjacent(k, a, e);
    SameBlockAsPod(k, e, a);
  }

  lemma EdgeDownlink(k: int, e: nat, x: nat)
    requires ValidArity(k) && e < PodSwitchCount(k)
    ensures Link(Node(Edge, e), Node(Host, x)) in FatTreeLinks(k)
        <==> Node(Host, x) in Block(Host, e, Half(k))
  {
    EdgeHostAdjacent(k, e, x);
    HostBlock(k, e, x);
  }

  /** Host x belongs to edge switch e exactly when its index lies in block e. */
  lemma HostBlock(k: int, e: nat, x: nat)
    requires ValidArity(k) && e < PodSwitchCount(k)
    ensures x < PodSwitchCount(k) * Half(k) && x / Half(k) == e
        <==> e * Half(k) <= x < (e + 1) * Half(k)
  {
    PodFacts(k);
    var h := Half(k);
    DivMod(x, h);
    if e * h <= x < (e + 1) * h {
      BlockBelow(e, x - e * h, h, PodSwitchCount(k));
      DivModUnique(x, h, e, x - e * h);
    }
  }

  /** Host x hangs off exactly one switch, edge switch x / (k / 2). */
  lemma HostNeighbours(k: int, x: nat)
    requires ValidArity(k) && x < HostCount(k)
    ensures Neighbours(FatTreeLinks(k), Node(Host, x)) == {Node(Edge, x / Half(k))}
    ensures Degree(FatTree(k), Node(Host, x)) == 1
  {
    ArityFacts(k);
    var links := FatTreeLinks(k);
    var n := Node(Host, x);
    forall y | y in Neighbours(links, n) ensures y == Node(Edge, x / Half(k)) {
      NeighbourIff(links, n, y);
      if Link(n, y) in links {
        LinkShapes(k, Link(n, y));
        assert false;
      }
      LinkShapes(k, Link(y, n));
      EdgeHostAdjacent(k, y.index, x);
    }
    EdgeHostAdjacent(k, x / Half(k), x);
    NeighbourIff(links, n, Node(Edge, x / Half(k)));
  }
}
