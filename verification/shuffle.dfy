/**
 * Every `sort(() => Math.random() - 0.5)` in the games, abstracted.
 *
 * The random comparator outcomes are replaced by an arbitrary `seed`: each seed
 * entry chooses which of the remaining elements comes next. `Shuffle` is total,
 * always yields a permutation, and every permutation is the shuffle of some seed,
 * so a property proved for all seeds holds for every ordering the sort can produce.
 * Uniformity of the distribution is not modelled.
 */
module Shuffling {
  import opened Util

  function Shuffle<T>(s: seq<T>, seed: seq<nat>): (r: seq<T>)
    ensures |r| == |s|
    ensures multiset(r) == multiset(s)
    decreases |s|
  {
    if |s| == 0 then []
    else
      var k := if |seed| == 0 then 0 else seed[0] % |s|;
      [s[k]] + Shuffle(RemoveAt(s, k), if |seed| == 0 then [] else seed[1..])
  }

  /** The seed under which `Shuffle(s, _)` produces the permutation `p`. */
  function SeedFor<T(==)>(s: seq<T>, p: seq<T>): (seed: seq<nat>)
    requires multiset(p) == multiset(s)
    ensures |seed| == |s|
    decreases |s|
  {
    if |s| == 0 then []
    else
      assert |p| == |s| by { assert |multiset(p)| == |multiset(s)|; }
      assert p[0] in multiset(s);
      var k := IndexOf(s, p[0]);
      assert p == [p[0]] + p[1..];
      DropFirstPermutation(s, p, k);
      [k] + SeedFor(RemoveAt(s, k), p[1..])
  }

  /** A seed entry below the length picks exactly that position. */
  lemma ShuffleStep<T>(s: seq<T>, k: nat, rest: seq<nat>)
    requires k < |s|
    ensures Shuffle(s, [k] + rest) == [s[k]] + Shuffle(RemoveAt(s, k), rest)
  {
    assert k % |s| == k by { ModSmall(k, |s|); }
    assert ([k] + rest)[1..] == rest;
  }

  lemma ModSmall(k: nat, n: nat)
    requires k < n
    ensures k % n == k
  {
  }

  /** Removing the first element of `p` and its copy at `k` in `s` keeps the two permutations of each other. */
  lemma DropFirstPermutation<T>(s: seq<T>, p: seq<T>, k: nat)
    requires multiset(p) == multiset(s)
    requires k < |s| && |p| > 0 && s[k] == p[0]
    ensures multiset(p[1..]) == multiset(RemoveAt(s, k))
  {
    var r := RemoveAt(s, k);
    assert p == [p[0]] + p[1..];
    assert multiset(p[1..]) + multiset{p[0]} == multiset(r) + multiset{p[0]};
    forall x ensures multiset(p[1..])[x] == multiset(r)[x] {
      assert (multiset(p[1..]) + multiset{p[0]})[x] == (multiset(r) + multiset{p[0]})[x];
    }
  }

  /** Completeness: every reordering of `s` is reachable by some seed. */
  lemma {:induction false} EveryPermutationIsAShuffle<T>(s: seq<T>, p: seq<T>)
    requires multiset(p) == multiset(s)
    ensures Shuffle(s, SeedFor(s, p)) == p
    decreases |s|
  {
    assert |p| == |s| by { assert |multiset(p)| == |multiset(s)|; }
    if |s| > 0 {
      assert p == [p[0]] + p[1..];
      assert p[0] in multiset(s);
      var k := IndexOf(s, p[0]);
      var r := RemoveAt(s, k);
      DropFirstPermutation(s, p, k);
      var rest := SeedFor(r, p[1..]);
      assert SeedFor(s, p) == [k] + rest;
      EveryPermutationIsAShuffle(r, p[1..]);
      ShuffleStep(s, k, rest);
      assert Shuffle(r, rest) == p[1..];
    }
  }
}
