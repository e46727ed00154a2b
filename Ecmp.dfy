/** Equal-cost multi-path selection: flow keys, the stable hash that reduces a key's
    digest to a path index, and the choice of one path among equal-cost candidates. */
module Ecmp {
  import opened Arith
  import opened Outcomes
  import opened Topology

  /** The first eight bytes of a SHA-256 digest read as a big-endian number. */
  type Word64 = x: nat | x < 0x1_0000_0000_0000_0000

  /** A flow's 5-tuple: source and destination host, ports and IP protocol number. */
  datatype FlowKey = FlowKey(src: Node, dst: Node, sport: int, dport: int, proto: int)

  /** A path is the sequence of nodes it visits. */
  type Path = seq<Node>

  /** The hash of a key's text form, truncated to 64 bits. SHA-256 and the text
      serialisation are not modelled; every operation takes this function as a
      parameter, so all that is assumed of it is that it is a function. */
  type Digest = FlowKey -> Word64

  // ----- stable_hash (lines 52-55)

  /** The digest reduced modulo n. A zero n is the modulo-by-zero error. */
  function StableHash(digest: Digest, key: FlowKey, n: nat): (r: Result<nat>)
    ensures r.Ok? <==> n > 0
    ensures r.Err? ==> r.error == HashDomainError
    ensures r.Ok? ==> r.value < n && r.value <= digest(key)
    ensures r.Ok? ==> exists q: nat :: digest(key) == q * n + r.value
  {
    if n == 0 then Err(HashDomainError)
    else
      var w := digest(key);
      assert w == (w / n) * n + w % n;
      Ok(w % n)
  }

  /** The index is the only one in [0, n) that differs from the digest by a multiple
      of n: hashing is a function of the digest and n alone. */
  lemma StableHashUnique(digest: Digest, key: FlowKey, n: nat, q: nat, i: nat)
    requires i < n && digest(key) == q * n + i
    ensures StableHash(digest, key, n) == Ok(i)
  {
    DivModUnique(digest(key), n, q, i);
  }

  // ----- ecmp_path (lines 58-61)

  /** The candidate at the key's hash index. No candidates means no path between the
      hosts, which the path search reports as an error before anything is hashed. */
  function EcmpPath(paths: seq<Path>, key: FlowKey, digest: Digest): (r: Result<Path>)
    ensures r.Ok? <==> |paths| > 0
    ensures r.Err? ==> r.error == NoPathExists
    ensures r.Ok? ==> r.value in paths
    ensures r.Ok? ==> exists i :: 0 <= i < |paths| && StableHash(digest, key, |paths|) == Ok(i)
                                  && paths[i] == r.value
  {
    if |paths| == 0 then Err(NoPathExists)
    else
      var i := StableHash(digest, key, |paths|).value;
      Ok(paths[i])
  }

  /** Flow affinity: keys that land on the same index follow the same path, so two
      colliding elephant flows share every link of it. */
  lemma EcmpAffinity(paths: seq<Path>, k1: FlowKey, k2: FlowKey, digest: Digest)
    requires |paths| > 0
    requires StableHash(digest, k1, |paths|) == StableHash(digest, k2, |paths|)
    ensures EcmpPath(paths, k1, digest) == EcmpPath(paths, k2, digest)
  {
  }

  /** Whatever the candidates have in common, the chosen path has: if all of them run
      from src to dst with the same number of hops, so does the choice. */
  lemma EcmpPathKeepsShape(paths: seq<Path>, key: FlowKey, digest: Digest,
                           src: Node, dst: Node, len: nat)
    requires forall p :: p in paths ==> |p| == len + 1 && p[0] == src && p[len] == dst
    requires |paths| > 0
    ensures |EcmpPath(paths, key, digest).value| == len + 1
    ensures EcmpPath(paths, key, digest).value[0] == src
    ensures EcmpPath(paths, key, digest).value[len] == dst
  {
    var p := EcmpPath(paths, key, digest).value;
    assert p in paths;
  }

  // ----- random_flow_key (lines 79-86)

  /** Well-known destination ports a flow picks from. */
  const ServicePorts: seq<int> := [80, 443, 8080]
  const EphemeralLow := 1024
  const EphemeralHigh := 65535
  const Tcp := 6
  /** A key consumes this many values of the random stream. */
  const DrawsPerKey := 2

  /** A draw from lo..hi inclusive, taken from one raw random value. */
  function RandInt(lo: int, hi: int, raw: nat): (x: int)
    requires lo <= hi
    ensures lo <= x <= hi
  {
    lo + raw % (hi - lo + 1)
  }

  /** A choice from a non-empty list, taken from one raw random value. */
  function Choice(xs: seq<int>, raw: nat): (x: int)
    requires |xs| > 0
    ensures x in xs
  {
    xs[raw % |xs|]
  }

  /** A TCP flow between src and dst with a random ephemeral source port and a random
      service port; it reads the random stream at pos and pos + 1. */
  function RandomFlowKey(src: Node, dst: Node, draws: nat -> nat, pos: nat): (key: FlowKey)
    ensures key.src == src && key.dst == dst
    ensures EphemeralLow <= key.sport <= EphemeralHigh
    ensures key.dport in {80, 443, 8080}
    ensures key.proto == Tcp
  {
    FlowKey(src, dst, RandInt(EphemeralLow, EphemeralHigh, draws(pos)),
            Choice(ServicePorts, draws(pos + 1)), Tcp)
  }

  /** Every key the range facts allow is produced by some stream: the draws modelled
      here are not narrower than the source's. */
  lemma RandomFlowKeyCovers(src: Node, dst: Node, sport: int, dport: int, draws: nat -> nat, pos: nat)
    requires EphemeralLow <= sport <= EphemeralHigh
    requires draws(pos) == sport - EphemeralLow
    requires draws(pos + 1) < |ServicePorts| && ServicePorts[draws(pos + 1)] == dport
    ensures RandomFlowKey(src, dst, draws, pos) == FlowKey(src, dst, sport, dport, Tcp)
  {
  }
}
