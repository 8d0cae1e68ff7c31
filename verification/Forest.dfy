/** The parent map of the polygon enumerators, as a forest: every id points to
    another id of the same polygon, and a root points to itself. */
module Forest {

  /** rank strictly falls along every parent link, so there is no cycle. */
  ghost predicate Ranked(map_: seq<nat>, rank: seq<nat>) {
    && |map_| == |rank|
    && forall k :: 0 <= k < |map_| ==> map_[k] < |map_| && (map_[k] != k ==> rank[map_[k]] < rank[k])
  }

  /** Where chasing the parents of k ends. */
  ghost function Root(map_: seq<nat>, rank: seq<nat>, k: nat): (r: nat)
    requires Ranked(map_, rank) && k < |map_|
    ensures r < |map_| && map_[r] == r
    decreases rank[k]
  {
    if map_[k] == k then k else Root(map_, rank, map_[k])
  }

  /** Linking the root s below the root d. */
  ghost function LinkRank(map_: seq<nat>, rank: seq<nat>, s: nat, d: nat): (r: seq<nat>)
    requires Ranked(map_, rank) && s < |map_| && d < |map_|
    ensures |r| == |rank|
  {
    seq(|rank|, k requires 0 <= k < |rank| =>
      if Root(map_, rank, k) == s then rank[k] + rank[d] + 1 else rank[k])
  }

  lemma LinkKeepsForest(map_: seq<nat>, rank: seq<nat>, s: nat, d: nat)
    requires Ranked(map_, rank) && s < |map_| && d < |map_|
    requires map_[s] == s && map_[d] == d && s != d
    ensures Ranked(map_[s := d], LinkRank(map_, rank, s, d))
  {
    var m, r := map_[s := d], LinkRank(map_, rank, s, d);
    forall k | 0 <= k < |m|
      ensures m[k] < |m| && (m[k] != k ==> r[m[k]] < r[k])
    {
      if k != s && m[k] != k {
        assert Root(map_, rank, k) == Root(map_, rank, map_[k]);
      }
    }
  }

  /** Linking s below d moves exactly the ids of s's tree to the root d. */
  lemma {:induction false} LinkRoot(map_: seq<nat>, rank: seq<nat>, s: nat, d: nat, k: nat)
    requires Ranked(map_, rank) && s < |map_| && d < |map_| && k < |map_|
    requires map_[s] == s && map_[d] == d && s != d
    requires Ranked(map_[s := d], LinkRank(map_, rank, s, d))
    ensures Root(map_[s := d], LinkRank(map_, rank, s, d), k)
         == if Root(map_, rank, k) == s then d else Root(map_, rank, k)
    decreases rank[k]
  {
    if k == s {
      assert Root(map_[s := d], LinkRank(map_, rank, s, d), d) == d;
    } else if map_[k] != k {
      LinkRoot(map_, rank, s, d, map_[k]);
    }
  }

  /** A new root, as NewPolygon appends it, leaves every other root alone. */
  lemma {:induction false} AppendRoot(map_: seq<nat>, rank: seq<nat>, k: nat)
    requires Ranked(map_, rank) && k < |map_|
    requires Ranked(map_ + [|map_|], rank + [0])
    ensures Root(map_ + [|map_|], rank + [0], k) == Root(map_, rank, k)
    decreases rank[k]
  {
    if map_[k] != k {
      AppendRoot(map_, rank, map_[k]);
    }
  }

  /** Pointing s straight at its grandparent keeps the forest and every root. */
  lemma {:induction false} ShortcutRoot(map_: seq<nat>, rank: seq<nat>, s: nat, k: nat)
    requires Ranked(map_, rank) && s < |map_| && k < |map_|
    ensures Ranked(map_[s := map_[map_[s]]], rank)
    ensures Root(map_[s := map_[map_[s]]], rank, k) == Root(map_, rank, k)
    decreases rank[k]
  {
    if map_[k] != k {
      ShortcutRoot(map_, rank, s, map_[k]);
    }
  }
}
