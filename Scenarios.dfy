/** The two traffic scenarios: four mice flows (lines 93-102), and two colliding
    elephant flows followed by two mice flows (lines 121-139). */
module Scenarios {
  import opened Outcomes
  import opened Topology
  import opened Ecmp
  import opened Loads
  import opened Collision

  const MiceDemand := 1
  const ElephantDemand := 20

  /** scenario_a: four mice flows of demand 1, each on the path its random key hashes
      to. The path search fails, after the first key is drawn, when no path exists. */
  method ScenarioA(paths: seq<Path>, src: Node, dst: Node, digest: Digest,
                   draws: nat -> nat, pos: nat)
    returns (r: Result<LoadMap>, next: nat)
    ensures r.Ok? <==> |paths| > 0
    ensures r.Err? ==> r.error == NoPathExists && next == pos + DrawsPerKey
    ensures r.Ok? ==> next == pos + 4 * DrawsPerKey
    ensures r.Ok? ==>
      (exists flows: seq<Path> :: |flows| == 4
         && (forall i :: 0 <= i < 4 ==>
               EcmpPath(paths, KeyAt(src, dst, draws, pos, i), digest) == Ok(flows[i]))
         && r.value == LoadsOf(flows, [1, 1, 1, 1], [Mice, Mice, Mice, Mice]))
  {
    var flows: seq<Path> := [];
    var demands: seq<int> := [];
    var types: seq<FlowType> := [];
    next := pos;
    var i := 0;
    while i < 4
      invariant 0 <= i <= 4 && next == pos + DrawsPerKey * i
      invariant i > 0 ==> |paths| > 0
      invariant |flows| == i && |demands| == i && |types| == i
      invariant forall j :: 0 <= j < i ==>
        EcmpPath(paths, KeyAt(src, dst, draws, pos, j), digest) == Ok(flows[j])
      invariant forall j :: 0 <= j < i ==> demands[j] == MiceDemand && types[j] == Mice
    {
      var key := RandomFlowKey(src, dst, draws, next);
      assert key == KeyAt(src, dst, draws, pos, i);
      next := next + DrawsPerKey;
      var p := EcmpPath(paths, key, digest);
      if p.Err? {
        return Err(p.error), next;
      }
      flows := flows + [p.value];
      demands := demands + [MiceDemand];
      types := types + [Mice];
      i := i + 1;
    }
    assert demands == [1, 1, 1, 1];
    assert types == [Mice, Mice, Mice, Mice];
    var loads := ComputeLinkLoads(flows, demands, types);
    return Ok(loads), next;
  }

  /** scenario_b: the two keys of a hash collision each carry an elephant flow of
      demand 20, then two random keys carry mice flows of demand 1. */
  method ScenarioB(paths: seq<Path>, src: Node, dst: Node, digest: Digest,
                   draws: nat -> nat, pos: nat, maxAttempts: nat)
    returns (r: Result<LoadMap>, next: nat)
    ensures |paths| == 0 ==> r == Err(NoPathExists)
    ensures |paths| > 0 ==>
      (r.Ok? <==> !NoCollisionWithin(digest, src, dst, draws, pos, |paths|, maxAttempts))
    ensures |paths| > 0 && r.Err? ==> r.error == CollisionSearchExhausted
    ensures r.Ok? ==>
      (exists i, j, flows: seq<Path> ::
         CollisionRun(paths, src, dst, digest, draws, pos, maxAttempts, i, j, flows, next)
         && r.value == LoadsOf(flows, [20, 20, 1, 1], [Elephant, Elephant, Mice, Mice]))
  {
    var pair;
    pair, next := FindCollisionKeys(paths, src, dst, digest, draws, pos, maxAttempts);
    if pair.Err? {
      return Err(pair.error), next;
    }
    var k1, k2 := pair.value.0, pair.value.1;
    ghost var c1, c2 :| 0 <= c1 < c2 < maxAttempts
      && k1 == KeyAt(src, dst, draws, pos, c1) && k2 == KeyAt(src, dst, draws, pos, c2)
      && NoCollisionWithin(digest, src, dst, draws, pos, |paths|, c2)
      && next == pos + DrawsPerKey * (c2 + 1);
    ghost var start := next;
    var flows, demands, types;
    flows, demands, types, next := CollisionFlows(paths, k1, k2, src, dst, digest, draws, next);
    MiceDrawsFollow(paths, src, dst, digest, draws, pos, c2, start, next, flows[2], flows[3]);
    var loads := ComputeLinkLoads(flows, demands, types);
    assert CollisionRun(paths, src, dst, digest, draws, pos, maxAttempts, c1, c2, flows, next);
    return Ok(loads), next;
  }

  /** The flows scenario_b runs when the search stops at draw j on a key stored at
      draw i: the two elephant flows ride the ECMP paths of those two different keys,
      which coincide; the mice flows ride the ECMP paths of the next two draws, j + 1
      and j + 2; no earlier draw collided; the stream ends up after draw j + 2. */
  ghost predicate CollisionRun(paths: seq<Path>, src: Node, dst: Node, digest: Digest,
                               draws: nat -> nat, pos: nat, maxAttempts: nat,
                               i: nat, j: nat, flows: seq<Path>, next: nat)
  {
    i < j < maxAttempts && |paths| > 0 && |flows| == 4
    && KeyAt(src, dst, draws, pos, i) != KeyAt(src, dst, draws, pos, j)
    && StableHash(digest, KeyAt(src, dst, draws, pos, i), |paths|)
       == StableHash(digest, KeyAt(src, dst, draws, pos, j), |paths|)
    && NoCollisionWithin(digest, src, dst, draws, pos, |paths|, j)
    && EcmpPath(paths, KeyAt(src, dst, draws, pos, i), digest) == Ok(flows[0])
    && EcmpPath(paths, KeyAt(src, dst, draws, pos, j), digest) == Ok(flows[1])
    && EcmpPath(paths, KeyAt(src, dst, draws, pos, j + 1), digest) == Ok(flows[2])
    && EcmpPath(paths, KeyAt(src, dst, draws, pos, j + 2), digest) == Ok(flows[3])
    && flows[0] == flows[1]
    && next == pos + DrawsPerKey * (j + 3)
  }

  /** The run is determined by the inputs: the search stops at one draw j only, so the
      four flows and the final stream position are the same for every run. */
  lemma CollisionRunUnique(paths: seq<Path>, src: Node, dst: Node, digest: Digest,
                           draws: nat -> nat, pos: nat, maxAttempts: nat,
                           i: nat, j: nat, flows: seq<Path>, next: nat,
                           i': nat, j': nat, flows': seq<Path>, next': nat)
    requires CollisionRun(paths, src, dst, digest, draws, pos, maxAttempts, i, j, flows, next)
    requires CollisionRun(paths, src, dst, digest, draws, pos, maxAttempts, i', j', flows', next')
    ensures j == j' && flows == flows' && next == next'
  {
    if j < j' {
      assert false;
    } else if j' < j {
      assert false;
    }
    assert flows[1] == flows'[1];
    assert flows == [flows[0], flows[1], flows[2], flows[3]];
    assert flows' == [flows'[0], flows'[1], flows'[2], flows'[3]];
  }

  /** The flow lists of scenario_b once the colliding pair k1, k2 is known: the two
      elephant flows on the pair's ECMP paths, which coincide, then two mice flows on
      the ECMP paths of the next two keys drawn from the stream at pos. */
  method CollisionFlows(paths: seq<Path>, k1: FlowKey, k2: FlowKey, src: Node, dst: Node,
                        digest: Digest, draws: nat -> nat, pos: nat)
    returns (flows: seq<Path>, demands: seq<int>, types: seq<FlowType>, next: nat)
    requires |paths| > 0
    requires StableHash(digest, k1, |paths|) == StableHash(digest, k2, |paths|)
    ensures |flows| == 4 && flows[0] == flows[1]
    ensures EcmpPath(paths, k1, digest) == Ok(flows[0])
    ensures EcmpPath(paths, k2, digest) == Ok(flows[1])
    ensures EcmpPath(paths, KeyAt(src, dst, draws, pos, 0), digest) == Ok(flows[2])
    ensures EcmpPath(paths, KeyAt(src, dst, draws, pos, 1), digest) == Ok(flows[3])
    ensures demands == [20, 20, 1, 1] && types == [Elephant, Elephant, Mice, Mice]
    ensures next == pos + DrawsPerKey * 2
  {
    flows, demands, types := [], [], [];
    EcmpAffinity(paths, k1, k2, digest);
    var keys := [k1, k2];
    var i := 0;
    while i < 2
      invariant 0 <= i <= 2
      invariant |flows| == i && |demands| == i && |types| == i
      invariant forall j :: 0 <= j < i ==> Ok(flows[j]) == EcmpPath(paths, keys[j], digest)
      invariant forall j :: 0 <= j < i ==> demands[j] == ElephantDemand && types[j] == Elephant
    {
      var p := EcmpPath(paths, keys[i], digest);
      flows := flows + [p.value];
      demands := demands + [ElephantDemand];
      types := types + [Elephant];
      i := i + 1;
    }
    next := pos;
    i := 0;
    while i < 2
      invariant 0 <= i <= 2
      invariant |flows| == 2 + i && |demands| == 2 + i && |types| == 2 + i
      invariant next == pos + DrawsPerKey * i
      invariant Ok(flows[0]) == EcmpPath(paths, k1, digest) && flows[0] == flows[1]
      invariant forall j :: 2 <= j < 2 + i ==>
        Ok(flows[j]) == EcmpPath(paths, KeyAt(src, dst, draws, pos, j - 2), digest)
      invariant forall j :: 0 <= j < 2 + i ==>
        demands[j] == (if j < 2 then ElephantDemand else MiceDemand)
        && types[j] == (if j < 2 then Elephant else Mice)
    {
      var key := RandomFlowKey(src, dst, draws, next);
      assert key == KeyAt(src, dst, draws, pos, i);
      next := next + DrawsPerKey;
      var p := EcmpPath(paths, key, digest);
      flows := flows + [p.value];
      demands := demands + [MiceDemand];
      types := types + [Mice];
      i := i + 1;
    }
    assert demands == [20, 20, 1, 1];
    assert types == [Elephant, Elephant, Mice, Mice];
  }

  /** The mice keys of scenario_b, drawn from the stream where the search stopped after
      draw c, are draws c + 1 and c + 2 of the whole run, and the run ends after c + 2. */
  lemma MiceDrawsFollow(paths: seq<Path>, src: Node, dst: Node, digest: Digest,
                        draws: nat -> nat, base: nat, c: nat, start: nat, next: nat,
                        f2: Path, f3: Path)
    requires start == base + DrawsPerKey * (c + 1) && next == start + DrawsPerKey * 2
    requires EcmpPath(paths, KeyAt(src, dst, draws, start, 0), digest) == Ok(f2)
    requires EcmpPath(paths, KeyAt(src, dst, draws, start, 1), digest) == Ok(f3)
    ensures EcmpPath(paths, KeyAt(src, dst, draws, base, c + 1), digest) == Ok(f2)
    ensures EcmpPath(paths, KeyAt(src, dst, draws, base, c + 2), digest) == Ok(f3)
    ensures next == base + DrawsPerKey * (c + 3)
  {
    KeyAtShift(src, dst, draws, base, c + 1, start, 0);
    KeyAtShift(src, dst, draws, base, c + 1, start, 1);
    assert c + 1 + 1 == c + 2;
  }

  // ----- what the scenarios put on the links

  /** Scenario A: no elephant load anywhere; a link's mice load is the number of the
      four flows crossing it, counted per crossing; the total is the four hop counts. */
  lemma ScenarioALoads(flows: seq<Path>, l: Link)
    requires |flows| == 4
    ensures Get(LoadsOf(flows, [1, 1, 1, 1], [Mice, Mice, Mice, Mice]), l).elephant == 0
    ensures Get(LoadsOf(flows, [1, 1, 1, 1], [Mice, Mice, Mice, Mice]), l).mice
         == Hits(flows[0], l, Hops(flows[0])) + Hits(flows[1], l, Hops(flows[1]))
          + Hits(flows[2], l, Hops(flows[2])) + Hits(flows[3], l, Hops(flows[3]))
    ensures Total(LoadsOf(flows, [1, 1, 1, 1], [Mice, Mice, Mice, Mice]))
         == Hops(flows[0]) + Hops(flows[1]) + Hops(flows[2]) + Hops(flows[3])
  {
    var demands, types := [1, 1, 1, 1], [Mice, Mice, Mice, Mice];
    assert FlowCount(flows, demands, types) == 4;
    LoadsByClass(flows, demands, types, 4, Mice, l);
    LoadsByClass(flows, demands, types, 4, Elephant, l);
    LoadsConserved(flows, demands, types, 4);
    AbsentClassIsIdle(flows, demands, types, 4, Elephant, l);
    var h0, h1 := Hits(flows[0], l, Hops(flows[0])), Hits(flows[1], l, Hops(flows[1]));
    var h2, h3 := Hits(flows[2], l, Hops(flows[2])), Hits(flows[3], l, Hops(flows[3]));
    assert ClassLoad(flows, demands, types, 1, Mice, l) == h0;
    assert ClassLoad(flows, demands, types, 2, Mice, l) == h0 + h1;
    assert ClassLoad(flows, demands, types, 3, Mice, l) == h0 + h1 + h2;
    assert ClassLoad(flows, demands, types, 4, Mice, l) == h0 + h1 + h2 + h3;
    assert Injected(flows, demands, types, 1) == Hops(flows[0]);
    assert Injected(flows, demands, types, 2) == Hops(flows[0]) + Hops(flows[1]);
    assert Injected(flows, demands, types, 3) == Hops(flows[0]) + Hops(flows[1]) + Hops(flows[2]);
  }

  /** Scenario B: the two elephant flows share one path, so each link of it carries
      their demand twice over; the mice counters see only the two mice flows. */
  lemma ScenarioBLoads(flows: seq<Path>, l: Link)
    requires |flows| == 4 && flows[0] == flows[1]
    ensures Get(LoadsOf(flows, [20, 20, 1, 1], [Elephant, Elephant, Mice, Mice]), l).elephant
         == 2 * ElephantDemand * Hits(flows[0], l, Hops(flows[0]))
    ensures Get(LoadsOf(flows, [20, 20, 1, 1], [Elephant, Elephant, Mice, Mice]), l).mice
         == Hits(flows[2], l, Hops(flows[2])) + Hits(flows[3], l, Hops(flows[3]))
    ensures Total(LoadsOf(flows, [20, 20, 1, 1], [Elephant, Elephant, Mice, Mice]))
         == 2 * ElephantDemand * Hops(flows[0]) + Hops(flows[2]) + Hops(flows[3])
  {
    var demands, types := [20, 20, 1, 1], [Elephant, Elephant, Mice, Mice];
    assert FlowCount(flows, demands, types) == 4;
    LoadsByClass(flows, demands, types, 4, Mice, l);
    LoadsByClass(flows, demands, types, 4, Elephant, l);
    LoadsConserved(flows, demands, types, 4);
    var h0 := Hits(flows[0], l, Hops(flows[0]));
    var h2, h3 := Hits(flows[2], l, Hops(flows[2])), Hits(flows[3], l, Hops(flows[3]));
    assert ClassLoad(flows, demands, types, 1, Elephant, l) == 20 * h0;
    assert ClassLoad(flows, demands, types, 2, Elephant, l) == 20 * h0 + 20 * h0;
    assert ClassLoad(flows, demands, types, 3, Elephant, l) == 20 * h0 + 20 * h0;
    assert ClassLoad(flows, demands, types, 1, Mice, l) == 0;
    assert ClassLoad(flows, demands, types, 2, Mice, l) == 0;
    assert ClassLoad(flows, demands, types, 3, Mice, l) == h2;
    assert Injected(flows, demands, types, 1) == 20 * Hops(flows[0]);
    assert Injected(flows, demands, types, 2) == 20 * Hops(flows[0]) + 20 * Hops(flows[0]);
    assert Injected(flows, demands, types, 3) == 40 * Hops(flows[0]) + Hops(flows[2]);
  }

  /** On a simple shared path every link carries exactly both elephants' demand. */
  lemma ScenarioBElephantsPileUp(flows: seq<Path>, j: nat)
    requires |flows| == 4 && flows[0] == flows[1]
    requires Simple(flows[0]) && j < Hops(flows[0])
    ensures Get(LoadsOf(flows, [20, 20, 1, 1], [Elephant, Elephant, Mice, Mice]),
                HopLink(flows[0], j)).elephant == 2 * ElephantDemand
  {
    var l := HopLink(flows[0], j);
    SimplePathHitsOnce(flows[0], j);
    assert Hits(flows[0], l, Hops(flows[0])) == 1;
    ScenarioBLoads(flows, l);
  }
}
