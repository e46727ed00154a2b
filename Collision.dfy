/** The search for two different flow keys that hash to the same path index
    (lines 109-118). */
module Collision {
  import opened Arith
  import opened Outcomes
  import opened Topology
  import opened Ecmp

  /** The t-th key the search draws from the random stream that starts at pos. */
  function KeyAt(src: Node, dst: Node, draws: nat -> nat, pos: nat, t: nat): FlowKey
  {
    RandomFlowKey(src, dst, draws, pos + DrawsPerKey * t)
  }

  /** Keys drawn from a stream position c keys further on are the same keys, c later. */
  lemma KeyAtShift(src: Node, dst: Node, draws: nat -> nat, pos: nat, c: nat, start: nat, t: nat)
    requires start == pos + DrawsPerKey * c
    ensures KeyAt(src, dst, draws, start, t) == KeyAt(src, dst, draws, pos, c + t)
  {
    assert start + DrawsPerKey * t == pos + DrawsPerKey * (c + t);
  }

  /** The path index of the t-th key among n candidates. */
  function IndexAt(digest: Digest, src: Node, dst: Node, draws: nat -> nat, pos: nat, n: nat, t: nat): nat
    requires n > 0
  {
    StableHash(digest, KeyAt(src, dst, draws, pos, t), n).value
  }

  /** Among the first t keys, any two that share an index are the same key. */
  ghost predicate NoCollisionWithin(digest: Digest, src: Node, dst: Node, draws: nat -> nat, pos: nat,
                                    n: nat, t: nat)
    requires n > 0
  {
    forall i, j :: 0 <= i < j < t && IndexAt(digest, src, dst, draws, pos, n, i)
                                    == IndexAt(digest, src, dst, draws, pos, n, j)
               ==> KeyAt(src, dst, draws, pos, i) == KeyAt(src, dst, draws, pos, j)
  }

  /** find_collision_keys: draws keys until one lands on an index already held by a
      different key, and returns the held key and the new one. The search gives up
      after maxAttempts keys. `seen` maps each index to the key first drawn there. */
  method FindCollisionKeys(paths: seq<Path>, src: Node, dst: Node, digest: Digest,
                           draws: nat -> nat, pos: nat, maxAttempts: nat)
    returns (r: Result<(FlowKey, FlowKey)>, next: nat)
    ensures |paths| == 0 ==> r == Err(NoPathExists) && next == pos
    ensures |paths| > 0 ==>
      (r.Ok? <==> !NoCollisionWithin(digest, src, dst, draws, pos, |paths|, maxAttempts))
    ensures |paths| > 0 && r.Err? ==>
      r.error == CollisionSearchExhausted && next == pos + DrawsPerKey * maxAttempts
    ensures r.Ok? ==>
      (r.value.0 != r.value.1
       && StableHash(digest, r.value.0, |paths|) == StableHash(digest, r.value.1, |paths|))
    ensures r.Ok? ==>
      (exists i, j :: 0 <= i < j < maxAttempts
         && r.value.0 == KeyAt(src, dst, draws, pos, i) && r.value.1 == KeyAt(src, dst, draws, pos, j)
         && NoCollisionWithin(digest, src, dst, draws, pos, |paths|, j)
         && next == pos + DrawsPerKey * (j + 1))
  {
    if |paths| == 0 {
      return Err(NoPathExists), pos;
    }
    var n := |paths|;
    var seen: map<nat, FlowKey> := map[];
    ghost var first: map<nat, nat> := map[];
    var t := 0;
    next := pos;
    while t < maxAttempts
      invariant t <= maxAttempts
      invariant next == pos + DrawsPerKey * t
      invariant SeenInvariant(digest, src, dst, draws, pos, n, t, seen, first)
      invariant NoCollisionWithin(digest, src, dst, draws, pos, n, t)
    {
      var key := RandomFlowKey(src, dst, draws, next);
      assert key == KeyAt(src, dst, draws, pos, t);
      next := next + DrawsPerKey;
      var idx := StableHash(digest, key, n).value;
      if idx in seen && seen[idx] != key {
        CollisionFound(digest, src, dst, draws, pos, n, t, seen, first, maxAttempts);
        ghost var i := first[idx];
        assert 0 <= i < t < maxAttempts && seen[idx] == KeyAt(src, dst, draws, pos, i)
          && key == KeyAt(src, dst, draws, pos, t);
        return Ok((seen[idx], key)), next;
      }
      SeenStep(digest, src, dst, draws, pos, n, t, seen, first);
      if idx !in seen {
        first := first[idx := t];
      }
      seen := seen[idx := key];
      t := t + 1;
    }
    return Err(CollisionSearchExhausted), next;
  }

  /** The loop invariant of the search after t keys: every stored key hashes to its
      index, each drawn key is the one stored at its index, and every stored index
      was first reached by the draw `first` records for it. */
  ghost predicate SeenInvariant(digest: Digest, src: Node, dst: Node, draws: nat -> nat, pos: nat,
                                n: nat, t: nat, seen: map<nat, FlowKey>, first: map<nat, nat>)
    requires n > 0
  {
    (forall idx :: idx in seen ==> StableHash(digest, seen[idx], n) == Ok(idx))
    && (forall i :: 0 <= i < t ==>
          (IndexAt(digest, src, dst, draws, pos, n, i) in seen
           && seen[IndexAt(digest, src, dst, draws, pos, n, i)] == KeyAt(src, dst, draws, pos, i)))
    && (forall idx :: idx in seen ==>
          (idx in first && first[idx] < t && IndexAt(digest, src, dst, draws, pos, n, first[idx]) == idx))
  }

  /** Storing a key that does not collide keeps the invariant and extends the
      collision-free prefix by one. */
  lemma SeenStep(digest: Digest, src: Node, dst: Node, draws: nat -> nat, pos: nat,
                 n: nat, t: nat, seen: map<nat, FlowKey>, first: map<nat, nat>)
    requires n > 0
    requires SeenInvariant(digest, src, dst, draws, pos, n, t, seen, first)
    requires NoCollisionWithin(digest, src, dst, draws, pos, n, t)
    requires var idx := IndexAt(digest, src, dst, draws, pos, n, t);
             idx in seen ==> seen[idx] == KeyAt(src, dst, draws, pos, t)
    ensures var idx := IndexAt(digest, src, dst, draws, pos, n, t);
            SeenInvariant(digest, src, dst, draws, pos, n, t + 1,
                          seen[idx := KeyAt(src, dst, draws, pos, t)],
                          if idx in seen then first else first[idx := t])
    ensures NoCollisionWithin(digest, src, dst, draws, pos, n, t + 1)
  {
    SeenStepDraws(digest, src, dst, draws, pos, n, t, seen);
    SeenStepFree(digest, src, dst, draws, pos, n, t, seen);
  }

  lemma SeenStepDraws(digest: Digest, src: Node, dst: Node, draws: nat -> nat, pos: nat,
                      n: nat, t: nat, seen: map<nat, FlowKey>)
    requires n > 0
    requires forall i :: 0 <= i < t ==>
          (IndexAt(digest, src, dst, draws, pos, n, i) in seen
           && seen[IndexAt(digest, src, dst, draws, pos, n, i)] == KeyAt(src, dst, draws, pos, i))
    requires var idx := IndexAt(digest, src, dst, draws, pos, n, t);
             idx in seen ==> seen[idx] == KeyAt(src, dst, draws, pos, t)
    ensures var seen' := seen[IndexAt(digest, src, dst, draws, pos, n, t) := KeyAt(src, dst, draws, pos, t)];
            forall i :: 0 <= i < t + 1 ==>
              (IndexAt(digest, src, dst, draws, pos, n, i) in seen'
               && seen'[IndexAt(digest, src, dst, draws, pos, n, i)] == KeyAt(src, dst, draws, pos, i))
  {
  }

  lemma SeenStepFree(digest: Digest, src: Node, dst: Node, draws: nat -> nat, pos: nat,
                     n: nat, t: nat, seen: map<nat, FlowKey>)
    requires n > 0
    requires forall i :: 0 <= i < t ==>
          (IndexAt(digest, src, dst, draws, pos, n, i) in seen
           && seen[IndexAt(digest, src, dst, draws, pos, n, i)] == KeyAt(src, dst, draws, pos, i))
    requires NoCollisionWithin(digest, src, dst, draws, pos, n, t)
    requires var idx := IndexAt(digest, src, dst, draws, pos, n, t);
             idx in seen ==> seen[idx] == KeyAt(src, dst, draws, pos, t)
    ensures NoCollisionWithin(digest, src, dst, draws, pos, n, t + 1)
  {
  }

  /** A stored key that differs from the new one at the same index is an earlier draw,
      so the first t + 1 keys contain a collision. */
  lemma CollisionFound(digest: Digest, src: Node, dst: Node, draws: nat -> nat, pos: nat,
                       n: nat, t: nat, seen: map<nat, FlowKey>, first: map<nat, nat>,
                       maxAttempts: nat)
    requires 0 < n && t < maxAttempts
    requires SeenInvariant(digest, src, dst, draws, pos, n, t, seen, first)
    requires var idx := IndexAt(digest, src, dst, draws, pos, n, t);
             idx in seen && seen[idx] != KeyAt(src, dst, draws, pos, t)
    ensures var idx := IndexAt(digest, src, dst, draws, pos, n, t);
            first[idx] < t && seen[idx] == KeyAt(src, dst, draws, pos, first[idx])
    ensures !NoCollisionWithin(digest, src, dst, draws, pos, n, maxAttempts)
  {
    var idx := IndexAt(digest, src, dst, draws, pos, n, t);
    var i := first[idx];
    assert KeyAt(src, dst, draws, pos, i) != KeyAt(src, dst, draws, pos, t);
  }

  /** Pigeonhole: once more keys than paths have been drawn and all of them differ,
      some two of them share an index, so the search (given that many attempts)
      returns a pair. */
  lemma CollisionForced(digest: Digest, src: Node, dst: Node, draws: nat -> nat, pos: nat,
                        n: nat, t: nat)
    requires 0 < n < t
    requires forall i, j :: 0 <= i < j < t ==> KeyAt(src, dst, draws, pos, i) != KeyAt(src, dst, draws, pos, j)
    ensures !NoCollisionWithin(digest, src, dst, draws, pos, n, t)
  {
    if NoCollisionWithin(digest, src, dst, draws, pos, n, t) {
      var f := (i: nat) => if i < t then IndexAt(digest, src, dst, draws, pos, n, i) else 0;
      forall i: nat, j: nat | i < j < t ensures f(i) != f(j) {
        assert KeyAt(src, dst, draws, pos, i) != KeyAt(src, dst, draws, pos, j);
      }
      ImageSize(f, t);
      var used := set i: nat | i < t :: f(i);
      forall x | x in used ensures x < n {
        var i: nat :| i < t && f(i) == x;
      }
      SubsetSize(used, n);
      assert false;
    }
  }

  /** A set of numbers below n has at most n elements. */
  lemma {:induction false} SubsetSize(s: set<nat>, n: nat)
    requires forall x :: x in s ==> x < n
    ensures |s| <= n
  {
    if n > 0 {
      var s' := s - {n - 1};
      SubsetSize(s', n - 1);
    } else {
      assert s == {};
    }
  }
}
