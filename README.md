# Fat-tree ECMP load model

A Dafny model of a small fat-tree datacentre simulator (`fattree_ecmp_sim.py`).

The simulator does five things:

- It builds a k-ary fat tree of core, aggregation and edge switches and hosts.
- It spreads flows over equal-cost shortest paths with ECMP. The path is chosen by a stable hash of the flow's 5-tuple.
- It adds up the load each link carries, with mice traffic and elephant traffic kept apart.
- It searches for two flow keys that collide on one path.
- It runs two scenarios: four mice flows, and two colliding elephant flows plus two mice flows.

## Modules

- `Topology`: nodes, normalised links and the construction of the fat tree.
  - The imperative loops of `generate_fat_tree` become methods over a link set.
  - Each method is proved equal to a set-valued specification of the wiring.
- `FatTreeProps`: what the wiring guarantees for a positive even k.
  - The layer sizes.
  - Exactly which pairs of nodes are adjacent.
  - The neighbour set and degree of every node.
- `Ecmp`: flow keys, the stable hash, path selection and random key generation.
- `Loads`: the per-link load accounting.
  - A method with the source's two nested loops, over a map updated in place.
  - A loop-shaped specification function (`LoadsOf`).
  - Independent reference definitions: per-class demand times crossings, and injected demand.
  - Lemmas tying the two together.
- `Collision`: the collision search, as a loop over the `seen` map with its invariant.
- `Scenarios`: the two drivers, and what they put on each link.
- `Arith`, `Outcomes`: division and cardinality facts; the error type.

## Modelling choices

- **The digest.** The source hashes the key's text form with SHA-256 and keeps the first eight bytes. Here that is a parameter `digest: FlowKey -> Word64`.
- **Random numbers.** Python's `random` becomes an explicit stream `draws: nat -> nat` and a position. A key reads two values of the stream.
- **Shortest paths.** The shortest-path search is a library call. Its result is an input `paths: seq<Path>`.
- **Errors.** The model returns a `Result` error where the source raises an exception:
  - no path (`NoPathExists`), where networkx raises `NetworkXNoPath`;
  - a hash modulo zero (`HashDomainError`), where Python raises `ZeroDivisionError`.
- **A bounded collision search.** `find_collision_keys` loops with `while True` and never gives up. The model bounds it by `maxAttempts` keys and adds a third error, `CollisionSearchExhausted`, for a search that reaches the bound (see "Left out").
- **Any integer k.** `generate_fat_tree` is modelled for every integer k, with Python's floor division and empty ranges for negative bounds. The structural properties are stated for positive even k.

## Model

| member | source | states |
|---|---|---|
| Topology.MakeLink | fattree_ecmp_sim.py:72 | the stored link has its end points in the fixed node order, and its ends are exactly the two nodes |
| Topology.MakeLinkSymmetric | fattree_ecmp_sim.py:72 | both directions of one hop give the same dictionary key |
| Topology.MakeLinkCanonical | fattree_ecmp_sim.py:72 | a link already in normal form is its own key, whichever way round its ends are given |
| Topology.UplinkInRange | fattree_ecmp_sim.py:29 | `pod*(k/2) + i/(k/2)` lies inside the aggregation list, inside pod `pod`, at offset `i/(k/2)` |
| Topology.PodSwitchInRange | fattree_ecmp_sim.py:34-36 | the indices of pod `pod`'s switches lie in the switch lists and belong to that pod |
| Topology.HostInRange | fattree_ecmp_sim.py:41-43 | the host counter stays below k³/4 when `hosts[h]` is read, and host h belongs to edge switch h/(k/2) |
| Topology.HostsFitInLayer | fattree_ecmp_sim.py:19 | k·(k/2) edge switches with k/2 hosts each need no more than k³/4 hosts, for every k with k/2 > 0, odd k included |
| Topology.WireCoreToAggregation | fattree_ecmp_sim.py:27-30 | the loop adds exactly the core-to-aggregation link set (every core switch to one aggregation switch per pod) |
| Topology.WireAggregationToEdge | fattree_ecmp_sim.py:33-36 | the three nested loops add exactly the complete bipartite aggregation-to-edge wiring of every pod |
| Topology.WireEdgeToHosts | fattree_ecmp_sim.py:39-43 | the loop with the running counter h adds exactly the links from edge switch e to its k/2 hosts; its loop invariant keeps h at e·(k/2) at each edge switch, and `HostInRange` keeps every read inside the host list |
| Topology.GenerateFatTree | fattree_ecmp_sim.py:13-45 | the graph built is the fat tree: the four layer lists are the nodes, and the links are the three wirings together; k defaults to 4 |
| FatTreeProps.LayerSizes | fattree_ecmp_sim.py:16-19 | for even k > 0 the layers have (k/2)², k·(k/2), k·(k/2) and k³/4 nodes |
| FatTreeProps.LinkShapes | fattree_ecmp_sim.py:26-43 | every link joins core to aggregation, aggregation to edge, or edge to host |
| FatTreeProps.LinksWithinNodes | fattree_ecmp_sim.py:26-43 | both ends of every link are nodes of the graph, for every k |
| FatTreeProps.CoreAggregationAdjacent | fattree_ecmp_sim.py:27-30 | core i and aggregation a are linked if and only if a's offset in its pod is i/(k/2) |
| FatTreeProps.AggregationEdgeAdjacent | fattree_ecmp_sim.py:33-36 | aggregation a and edge e are linked if and only if both are in the same pod; there are no links across pods |
| FatTreeProps.EdgeHostAdjacent | fattree_ecmp_sim.py:39-43 | edge e and host x are linked if and only if x is wired and x/(k/2) == e |
| FatTreeProps.CoreNeighbours | fattree_ecmp_sim.py:27-30 | a core switch's neighbours are one aggregation switch per pod, so its degree is k |
| FatTreeProps.AggregationNeighbours | fattree_ecmp_sim.py:27-36 | an aggregation switch has k/2 core neighbours and the k/2 edge switches of its pod, so its degree is k |
| FatTreeProps.EdgeNeighbours | fattree_ecmp_sim.py:33-43 | an edge switch has the k/2 aggregation switches of its pod and exactly k/2 hosts, so its degree is k |
| FatTreeProps.HostNeighbours | fattree_ecmp_sim.py:39-43 | every host hangs off exactly one edge switch, h/(k/2), so all k³/4 hosts are covered |
| Ecmp.StableHash | fattree_ecmp_sim.py:52-55 | the result is an index in [0, n) that differs from the digest by a multiple of n; n == 0 is an error |
| Ecmp.StableHashUnique | fattree_ecmp_sim.py:55 | the index is the only value in [0, n) congruent to the digest, so the hash depends on the digest and n alone |
| Ecmp.EcmpPath | fattree_ecmp_sim.py:58-61 | the result is the candidate at the key's hash index, so it is one of the candidates; no candidates is an error |
| Ecmp.EcmpAffinity | fattree_ecmp_sim.py:60-61 | two keys with the same hash index get the same path |
| Ecmp.EcmpPathKeepsShape | fattree_ecmp_sim.py:59-61 | when all candidates have the same length and end points, so does the chosen path |
| Ecmp.RandInt | fattree_ecmp_sim.py:83 | a draw lies in lo..hi inclusive |
| Ecmp.Choice | fattree_ecmp_sim.py:84 | a choice is an element of the list |
| Ecmp.RandomFlowKey | fattree_ecmp_sim.py:79-86 | the key keeps src and dst and has a source port in [1024, 65535], a destination port in {80, 443, 8080} and protocol 6 |
| Ecmp.RandomFlowKeyCovers | fattree_ecmp_sim.py:83-84 | every key allowed by those ranges comes from some pair of stream values |
| Loads.AddDemand | fattree_ecmp_sim.py:75 | the demand is added to the flow's own class and the other class is unchanged |
| Loads.ComputeLinkLoads | fattree_ecmp_sim.py:64-76 | the nested loops over flows and hops build the loop-shaped specification `LoadsOf` |
| Loads.LoadsKeys | fattree_ecmp_sim.py:71-74 | a link has an entry if and only if some flow crosses it, and every key is normalised |
| Loads.LoadsByClass | fattree_ecmp_sim.py:73-75 | a link's mice (elephant) counter is the sum, over mice (elephant) flows only, of demand times crossings |
| Loads.LoadsConserved | fattree_ecmp_sim.py:70-75 | summed over links and classes, the load is Σ demand·hops over the flows, hops being len(path) − 1 for a non-empty path and 0 for an empty one |
| Loads.AbsentClassIsIdle | fattree_ecmp_sim.py:75 | a class that no flow has carries zero on every link |
| Loads.LoadsOfProperties | fattree_ecmp_sim.py:64-76 | the three properties for the whole, zip-truncated flow list |
| Loads.SimplePathHitsOnce | fattree_ecmp_sim.py:71-72 | a path that repeats no node crosses each of its links exactly once |
| Collision.FindCollisionKeys | fattree_ecmp_sim.py:109-118 | a returned pair is two different keys with the same hash index; it is the first collision among the drawn keys; the search fails if and only if the drawn keys hold no collision |
| Collision.SeenStep | fattree_ecmp_sim.py:116-118 | storing a non-colliding key keeps the loop invariant: each stored key hashes to its index, and each drawn key is the one stored at its index |
| Collision.CollisionFound | fattree_ecmp_sim.py:116-117 | a different key already stored at the index was drawn earlier, so the drawn keys contain a collision |
| Collision.CollisionForced | fattree_ecmp_sim.py:113-118 | pigeonhole: more distinct keys than paths force a collision |
| Scenarios.ScenarioA | fattree_ecmp_sim.py:93-102 | four mice flows of demand 1 on the ECMP paths of four drawn keys, accounted by `LoadsOf`; no path is an error |
| Scenarios.ScenarioALoads | fattree_ecmp_sim.py:96-102 | scenario A puts no elephant load anywhere; a link's mice load is its crossings by the four flows; the total is the four hop counts |
| Scenarios.ScenarioB | fattree_ecmp_sim.py:121-139 | the elephant flows ride the ECMP paths of the two different keys with equal hash index the search stopped on (draws i < j, no collision before j), which are one path; the mice flows ride the ECMP paths of draws j + 1 and j + 2; the stream ends after draw j + 2; the loads are `LoadsOf` of those four flows; it fails if and only if there is no path or the search finds no collision |
| Scenarios.CollisionRunUnique | fattree_ecmp_sim.py:113-139 | the search stops at one draw only, so every run satisfying ScenarioB's description has the same four flows and the same final stream position |
| Scenarios.CollisionFlows | fattree_ecmp_sim.py:127-137 | the two loops put the colliding keys' one shared path twice with demand 20 as elephants, then the next two drawn keys' ECMP paths with demand 1 as mice |
| Scenarios.ScenarioBLoads | fattree_ecmp_sim.py:124-139 | the elephant counter of a link is 40 per crossing of the shared path; the mice counter sees only the two mice flows; the total is 40·hops plus the mice hops |
| Scenarios.ScenarioBElephantsPileUp | fattree_ecmp_sim.py:124-130 | on a simple shared path, every link of it carries both elephants' demand, 40 |

## Left out

- Plotting (fattree_ecmp_sim.py:146-223) is not modelled: it is matplotlib and numpy presentation work with floating-point layout.
- `main` (fattree_ecmp_sim.py:228-263) is not modelled: seeding, printing and writing image files are I/O.
- SHA-256 and the text serialisation of the key (lines 53-54) are a foreign call. The model has a digest parameter; all it knows is that the digest is a function.
- The shortest-path search (lines 59, 110) is a library call. Its result is an input list. The model does not check that the paths are shortest paths of the graph, or that they have equal length; `EcmpPathKeepsShape` states what follows when they do.
- The source searches paths again at every call; the model passes one list, since the graph is the same each time.
- RandomFlowKey: reads one stream value per random call and maps it into range by a modulo. Python's generator, its seeding, its consumption of state and its exact distribution are not modelled; only the range facts are kept.
- FindCollisionKeys: bounded by `maxAttempts` and fails with `CollisionSearchExhausted` when no collision appears in that many keys. The source's `while True` loop has no bound and may not terminate. `CollisionForced` gives a bound that suffices when the drawn keys are distinct.
- Scenarios.ScenarioB: takes the same `maxAttempts` bound, for the same reason.
- Node labels are not modelled. The source names nodes by strings ("C0", "A3", ...) and orders them by string comparison when it sorts a pair. The model uses a layer-and-index node and a layer-then-index order; both orders normalise a pair consistently, which is all the accounting needs.
- The networkx node attribute `layer` is the node's layer field.
- Edge attributes and networkx's internal adjacency structure are not modelled; the graph is a set of nodes and a set of normalised links.
- A flow type other than "mice" or "elephant" would raise a KeyError in the source; the model's `FlowType` has only those two values.
- Dictionary insertion order is not modelled; loads are a map.
- Scenarios.ScenarioA: when no path exists, it reports the error after drawing the first key, as the source raises there. The positions of the random stream after an error are otherwise not part of the source's behaviour.
