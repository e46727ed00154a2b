/** Per-link load accounting: every flow adds its demand, under its own traffic class,
    to each link it crosses (lines 64-76). */
module Loads {
  import opened Arith
  import opened Topology
  import opened Ecmp

  datatype FlowType = Mice | Elephant

  /** The two per-class counters a link carries. */
  datatype Load = Load(mice: int, elephant: int)

  /** The counters of a link no flow has crossed yet. */
  const NoLoad := Load(0, 0)

  /** Loads keyed by normalised link, so both directions of a hop share one entry. */
  type LoadMap = map<Link, Load>

  function Other(t: FlowType): FlowType
  {
    if t == Mice then Elephant else Mice
  }

  function Of(b: Load, t: FlowType): int
  {
    if t == Mice then b.mice else b.elephant
  }

  function Weight(b: Load): int
  {
    b.mice + b.elephant
  }

  /** Adds d to the counter of class t and leaves the other class alone. */
  function AddDemand(b: Load, t: FlowType, d: int): (b': Load)
    ensures Of(b', t) == Of(b, t) + d
    ensures Of(b', Other(t)) == Of(b, Other(t))
  {
    if t == Mice then b.(mice := b.mice + d) else b.(elephant := b.elephant + d)
  }

  /** Adding demand to one class adds it to the link's total. */
  lemma AddDemandWeight(b: Load, t: FlowType, d: int)
    ensures Weight(AddDemand(b, t, d)) == Weight(b) + d
  {
  }

  /** The counters of l, reading a missing entry as a fresh one. */
  function Get(m: LoadMap, l: Link): Load
  {
    if l in m then m[l] else NoLoad
  }

  // ----- paths as hop sequences

  /** The number of consecutive node pairs of p; a path of one node or none has none. */
  function Hops(p: Path): nat
  {
    if |p| == 0 then 0 else |p| - 1
  }

  /** The link crossed by hop j of p, normalised. */
  function HopLink(p: Path, j: nat): Link
    requires j < Hops(p)
  {
    MakeLink(p[j], p[j + 1])
  }

  /** How many of the first j hops of p cross l. */
  function Hits(p: Path, l: Link, j: nat): nat
    requires j <= Hops(p)
  {
    if j == 0 then 0 else Hits(p, l, j - 1) + (if HopLink(p, j - 1) == l then 1 else 0)
  }

  /** The flows are read in parallel from the three lists; extra entries of a longer
      list are ignored. */
  function FlowCount(paths: seq<Path>, demands: seq<int>, types: seq<FlowType>): nat
  {
    var n := if |paths| < |demands| then |paths| else |demands|;
    if n < |types| then n else |types|
  }

  // ----- the accounting, in the shape of the two loops

  /** The map after demand d of class t crosses l once. */
  function Bump(m: LoadMap, l: Link, t: FlowType, d: int): LoadMap
  {
    m[l := AddDemand(Get(m, l), t, d)]
  }

  /** The map after the first j hops of a flow on p with demand d and class t. */
  function AddHops(m: LoadMap, p: Path, d: int, t: FlowType, j: nat): LoadMap
    requires j <= Hops(p)
  {
    if j == 0 then m else Bump(AddHops(m, p, d, t, j - 1), HopLink(p, j - 1), t, d)
  }

  /** The map after the first f flows. */
  function LoadsAfter(paths: seq<Path>, demands: seq<int>, types: seq<FlowType>, f: nat): LoadMap
    requires f <= FlowCount(paths, demands, types)
  {
    if f == 0 then map[]
    else
      var p := paths[f - 1];
      AddHops(LoadsAfter(paths, demands, types, f - 1), p, demands[f - 1], types[f - 1], Hops(p))
  }

  function LoadsOf(paths: seq<Path>, demands: seq<int>, types: seq<FlowType>): LoadMap
  {
    LoadsAfter(paths, demands, types, FlowCount(paths, demands, types))
  }

  /** compute_link_loads_by_type: walks every hop of every flow and adds the flow's
      demand into the bucket of its class, creating the bucket on first use. */
  method ComputeLinkLoads(paths: seq<Path>, demands: seq<int>, types: seq<FlowType>)
    returns (loads: LoadMap)
    ensures loads == LoadsOf(paths, demands, types)
  {
    loads := map[];
    var n := FlowCount(paths, demands, types);
    var f := 0;
    while f < n
      invariant f <= n
      invariant loads == LoadsAfter(paths, demands, types, f)
    {
      var path, d, t := paths[f], demands[f], types[f];
      ghost var before := loads;
      var j := 0;
      while j < Hops(path)
        invariant j <= Hops(path)
        invariant loads == AddHops(before, path, d, t, j)
      {
        var edge := MakeLink(path[j], path[j + 1]);
        if edge !in loads {
          loads := loads[edge := NoLoad];
        }
        loads := loads[edge := AddDemand(loads[edge], t, d)];
        j := j + 1;
      }
      f := f + 1;
    }
  }

  // ----- reference definitions

  /** Whether one of the first f flows crosses l. */
  ghost predicate Crossed(paths: seq<Path>, demands: seq<int>, types: seq<FlowType>, f: nat, l: Link)
    requires f <= FlowCount(paths, demands, types)
  {
    exists g, j :: 0 <= g < f && 0 <= j < Hops(paths[g]) && HopLink(paths[g], j) == l
  }

  /** The demand the first f flows of class t put on l: demand times crossings. */
  function ClassLoad(paths: seq<Path>, demands: seq<int>, types: seq<FlowType>, f: nat,
                     t: FlowType, l: Link): int
    requires f <= FlowCount(paths, demands, types)
  {
    if f == 0 then 0
    else
      var p := paths[f - 1];
      ClassLoad(paths, demands, types, f - 1, t, l)
        + (if types[f - 1] == t then demands[f - 1] * Hits(p, l, Hops(p)) else 0)
  }

  /** The demand the first f flows inject: each flow's demand times its hop count. */
  function Injected(paths: seq<Path>, demands: seq<int>, types: seq<FlowType>, f: nat): int
    requires f <= FlowCount(paths, demands, types)
  {
    if f == 0 then 0
    else Injected(paths, demands, types, f - 1) + demands[f - 1] * Hops(paths[f - 1])
  }

  /** The sum of mice and elephant counters over all links of a map. */
  ghost function Total(m: LoadMap): int
    decreases |m|
  {
    if m == map[] then 0
    else
      var l :| l in m;
      Weight(m[l]) + Total(m - {l})
  }

  // ----- the total over a map

  lemma {:induction false} TotalRemove(m: LoadMap, l: Link)
    requires l in m
    ensures Total(m) == Weight(m[l]) + Total(m - {l})
    decreases |m|
  {
    var l' :| l' in m && Total(m) == Weight(m[l']) + Total(m - {l'});
    if l' != l {
      TotalRemove(m - {l'}, l);
      TotalRemove(m - {l}, l');
      assert (m - {l'}) - {l} == (m - {l}) - {l'};
    }
  }

  /** Overwriting an entry changes the total by the change of its weight. */
  lemma TotalUpdate(m: LoadMap, l: Link, b: Load)
    ensures Total(m[l := b]) == Total(m) - Weight(Get(m, l)) + Weight(b)
  {
    TotalRemove(m[l := b], l);
    if l in m {
      TotalRemove(m, l);
      assert m[l := b] - {l} == m - {l};
    } else {
      assert m[l := b] - {l} == m;
    }
  }

  // ----- what one flow does to the map

  lemma {:induction false} AddHopsKeys(m: LoadMap, p: Path, d: int, t: FlowType, j: nat, l: Link)
    requires j <= Hops(p)
    ensures l in AddHops(m, p, d, t, j) <==> l in m || exists i :: 0 <= i < j && HopLink(p, i) == l
  {
    if j > 0 {
      AddHopsKeys(m, p, d, t, j - 1, l);
      if exists i :: 0 <= i < j && HopLink(p, i) == l {
        var i :| 0 <= i < j && HopLink(p, i) == l;
        if i < j - 1 {
          assert exists i :: 0 <= i < j - 1 && HopLink(p, i) == l;
        }
      }
    }
  }

  lemma {:induction false} AddHopsClass(m: LoadMap, p: Path, d: int, t: FlowType, j: nat,
                                        t': FlowType, l: Link)
    requires j <= Hops(p)
    ensures Of(Get(AddHops(m, p, d, t, j), l), t')
         == Of(Get(m, l), t') + (if t' == t then d * Hits(p, l, j) else 0)
  {
    if j > 0 {
      AddHopsClass(m, p, d, t, j - 1, t', l);
      BumpClass(AddHops(m, p, d, t, j - 1), HopLink(p, j - 1), t, d, t', l);
      MulAddOne(d, Hits(p, l, j - 1));
    }
  }

  /** One crossing adds d to the crossed link's class-t counter and nothing else. */
  lemma BumpClass(m: LoadMap, crossed: Link, t: FlowType, d: int, t': FlowType, l: Link)
    ensures Of(Get(Bump(m, crossed, t, d), l), t')
         == Of(Get(m, l), t') + (if crossed == l && t' == t then d else 0)
  {
    if crossed == l {
      assert Get(Bump(m, crossed, t, d), l) == AddDemand(Get(m, l), t, d);
      if t' != t {
        assert t' == Other(t);
      }
    } else {
      assert Get(Bump(m, crossed, t, d), l) == Get(m, l);
    }
  }

  lemma {:induction false} AddHopsTotal(m: LoadMap, p: Path, d: int, t: FlowType, j: nat)
    requires j <= Hops(p)
    ensures Total(AddHops(m, p, d, t, j)) == Total(m) + d * j
  {
    if j > 0 {
      AddHopsTotal(m, p, d, t, j - 1);
      var m' := AddHops(m, p, d, t, j - 1);
      TotalUpdate(m', HopLink(p, j - 1), AddDemand(Get(m', HopLink(p, j - 1)), t, d));
      AddDemandWeight(Get(m', HopLink(p, j - 1)), t, d);
      assert d * j == d * (j - 1) + d;
    }
  }

  // ----- the properties of the accounting

  /** The keys are exactly the links some flow crosses, each one normalised: the two
      directions of a hop are one entry. */
  lemma {:induction false} LoadsKeys(paths: seq<Path>, demands: seq<int>, types: seq<FlowType>,
                                     f: nat, l: Link)
    requires f <= FlowCount(paths, demands, types)
    ensures l in LoadsAfter(paths, demands, types, f) <==> Crossed(paths, demands, types, f, l)
    ensures l in LoadsAfter(paths, demands, types, f) ==> Normalised(l)
  {
    if f > 0 {
      var p := paths[f - 1];
      LoadsKeys(paths, demands, types, f - 1, l);
      AddHopsKeys(LoadsAfter(paths, demands, types, f - 1), p, demands[f - 1], types[f - 1],
                  Hops(p), l);
      if Crossed(paths, demands, types, f, l) {
        var g, j :| 0 <= g < f && 0 <= j < Hops(paths[g]) && HopLink(paths[g], j) == l;
        if g < f - 1 {
          assert Crossed(paths, demands, types, f - 1, l);
        }
      }
      if l in LoadsAfter(paths, demands, types, f) && l !in LoadsAfter(paths, demands, types, f - 1) {
        var j :| 0 <= j < Hops(p) && HopLink(p, j) == l;
        assert Crossed(paths, demands, types, f, l);
      }
    }
  }

  /** Each class counter of a link holds exactly the demand of that class's flows, once
      per crossing: mice never count towards elephants nor the other way round. */
  lemma {:induction false} LoadsByClass(paths: seq<Path>, demands: seq<int>, types: seq<FlowType>,
                                        f: nat, t: FlowType, l: Link)
    requires f <= FlowCount(paths, demands, types)
    ensures Of(Get(LoadsAfter(paths, demands, types, f), l), t)
         == ClassLoad(paths, demands, types, f, t, l)
  {
    if f > 0 {
      var p := paths[f - 1];
      LoadsByClass(paths, demands, types, f - 1, t, l);
      AddHopsClass(LoadsAfter(paths, demands, types, f - 1), p, demands[f - 1], types[f - 1],
                   Hops(p), t, l);
    }
  }

  /** Conservation: summed over links and classes, the load is the demand every flow
      injects times the number of its hops. */
  lemma {:induction false} LoadsConserved(paths: seq<Path>, demands: seq<int>, types: seq<FlowType>,
                                          f: nat)
    requires f <= FlowCount(paths, demands, types)
    ensures Total(LoadsAfter(paths, demands, types, f)) == Injected(paths, demands, types, f)
  {
    if f > 0 {
      var p := paths[f - 1];
      LoadsConserved(paths, demands, types, f - 1);
      var before := LoadsAfter(paths, demands, types, f - 1);
      AddHopsTotal(before, p, demands[f - 1], types[f - 1], Hops(p));
      assert LoadsAfter(paths, demands, types, f)
          == AddHops(before, p, demands[f - 1], types[f - 1], Hops(p));
      assert Injected(paths, demands, types, f)
          == Injected(paths, demands, types, f - 1) + demands[f - 1] * Hops(p);
    }
  }

  /** A class no flow belongs to carries nothing anywhere. */
  lemma {:induction false} AbsentClassIsIdle(paths: seq<Path>, demands: seq<int>,
                                             types: seq<FlowType>, f: nat, t: FlowType, l: Link)
    requires f <= FlowCount(paths, demands, types)
    requires forall g :: 0 <= g < f ==> types[g] != t
    ensures ClassLoad(paths, demands, types, f, t, l) == 0
  {
    if f > 0 {
      AbsentClassIsIdle(paths, demands, types, f - 1, t, l);
    }
  }

  /** The stated properties, for the whole flow list. */
  lemma LoadsOfProperties(paths: seq<Path>, demands: seq<int>, types: seq<FlowType>, l: Link, t: FlowType)
    ensures l in LoadsOf(paths, demands, types)
        <==> Crossed(paths, demands, types, FlowCount(paths, demands, types), l)
    ensures l in LoadsOf(paths, demands, types) ==> Normalised(l)
    ensures Of(Get(LoadsOf(paths, demands, types), l), t)
         == ClassLoad(paths, demands, types, FlowCount(paths, demands, types), t, l)
    ensures Total(LoadsOf(paths, demands, types))
         == Injected(paths, demands, types, FlowCount(paths, demands, types))
  {
    var n := FlowCount(paths, demands, types);
    LoadsKeys(paths, demands, types, n, l);
    LoadsByClass(paths, demands, types, n, t, l);
    LoadsConserved(paths, demands, types, n);
  }

  // ----- simple paths

  /** A path that visits no node twice. */
  predicate Simple(p: Path)
  {
    forall i, j :: 0 <= i < j < |p| ==> p[i] != p[j]
  }

  /** Two different hops of a simple path cross different links. */
  lemma SimpleHopsDiffer(p: Path, i: nat, j: nat)
    requires Simple(p) && i < j < Hops(p)
    ensures HopLink(p, i) != HopLink(p, j)
  {
  }

  /** A link that only hop j crosses is hit once by the hops up to m that include j. */
  lemma {:induction false} HitsOnlyAt(p: Path, j: nat, m: nat)
    requires j < Hops(p) && m <= Hops(p)
    requires forall i :: 0 <= i < Hops(p) && i != j ==> HopLink(p, i) != HopLink(p, j)
    ensures Hits(p, HopLink(p, j), m) == if j < m then 1 else 0
  {
    if m > 0 {
      HitsOnlyAt(p, j, m - 1);
    }
  }

  /** A simple path crosses each of its links exactly once. */
  lemma SimplePathHitsOnce(p: Path, j: nat)
    requires Simple(p) && j < Hops(p)
    ensures Hits(p, HopLink(p, j), Hops(p)) == 1
  {
    forall i | 0 <= i < Hops(p) && i != j ensures HopLink(p, i) != HopLink(p, j) {
      if i < j {
        SimpleHopsDiffer(p, i, j);
      } else {
        SimpleHopsDiffer(p, j, i);
      }
    }
    HitsOnlyAt(p, j, Hops(p));
  }
}
