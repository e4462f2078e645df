/** Keys that are permutations of `0..n-1`, the first-occurrence search that
    `indexOf` performs, and the Fisher–Yates shuffle that both key generators
    (`generateRandomSubKey`, `generateRandomPermKey`) run. */
module Permutations {

  /** `Array.from(Array(n).keys())`: the list `0, 1, ..., n-1`. */
  function Iota(n: nat): (r: seq<int>)
    ensures |r| == n
    ensures forall i :: 0 <= i < n ==> r[i] == i
  {
    seq(n, i requires 0 <= i < n => i)
  }

  /** `key` holds each of `0..n-1` exactly once. */
  predicate IsPermutation(key: seq<int>, n: nat) {
    multiset(key) == multiset(Iota(n))
  }

  lemma {:induction false} IotaOnce(n: nat, v: int)
    ensures multiset(Iota(n))[v] == if 0 <= v < n then 1 else 0
  {
    if n > 0 {
      IotaOnce(n - 1, v);
      assert Iota(n) == Iota(n - 1) + [n - 1];
    }
  }

  /** What a permutation key is, entry by entry: the right length, every entry
      in range, no entry twice, and every value present. */
  lemma PermutationFacts(key: seq<int>, n: nat)
    requires IsPermutation(key, n)
    ensures |key| == n
    ensures forall i :: 0 <= i < |key| ==> 0 <= key[i] < n
    ensures forall i, j :: 0 <= i < j < |key| ==> key[i] != key[j]
    ensures forall v :: 0 <= v < n ==> v in key
  {
    assert |multiset(key)| == |key|;
    forall i | 0 <= i < |key| ensures 0 <= key[i] < n {
      assert key[i] in multiset(key);
      IotaOnce(n, key[i]);
    }
    forall i, j | 0 <= i < j < |key| ensures key[i] != key[j] {
      if key[i] == key[j] {
        var v := key[i];
        assert key == key[..j] + key[j..];
        assert v in key[..j] && v in key[j..];
        assert multiset(key)[v] == multiset(key[..j])[v] + multiset(key[j..])[v];
        IotaOnce(n, v);
        assert false;
      }
    }
    forall v | 0 <= v < n ensures v in key {
      IotaOnce(n, v);
      assert v in multiset(key);
    }
  }

  /** `s.indexOf(x)`: the first position holding `x`, or -1. */
  function IndexOf<T(==)>(s: seq<T>, x: T): (r: int)
    ensures -1 <= r < |s|
    ensures r == -1 <==> x !in s
    ensures r >= 0 ==> s[r] == x && x !in s[..r]
  {
    if s == [] then -1
    else if s[0] == x then 0
    else
      var r := IndexOf(s[1..], x);
      assert s[1..][..if r < 0 then 0 else r] == s[1..(if r < 0 then 1 else r + 1)];
      if r < 0 then -1 else r + 1
  }

  /** The first position holding `x` is the one before which `x` does not occur. */
  lemma IndexOfUnique<T>(s: seq<T>, x: T, j: int)
    requires 0 <= j < |s| && s[j] == x
    requires forall i :: 0 <= i < j ==> s[i] != x
    ensures IndexOf(s, x) == j
  {
  }

  /** In a permutation key the position of `key[i]` is `i`, and `key[p]` is at
      position `p`'s inverse. */
  lemma IndexOfPermutation(key: seq<int>, n: nat)
    requires IsPermutation(key, n)
    ensures |key| == n
    ensures forall i :: 0 <= i < |key| ==> IndexOf(key, key[i]) == i
    ensures forall v :: 0 <= v < n ==> 0 <= IndexOf(key, v) < n && key[IndexOf(key, v)] == v
  {
    PermutationFacts(key, n);
  }

  /** `Math.floor(Math.random() * (i + 1))` lies in `0..i` when the draw is in `[0, 1)`. */
  lemma PickInRange(r: real, i: nat)
    requires 0.0 <= r < 1.0
    ensures 0 <= (r * (i + 1) as real).Floor <= i
  {
    var n := (i + 1) as real;
    var x := r * n;
    MulNonNegative(r, n);
    MulPositive(1.0 - r, n);
    assert n - x == (1.0 - r) * n;
    assert 0.0 <= x < n;
    assert x.Floor as real <= x;
  }

  lemma MulNonNegative(a: real, b: real)
    requires a >= 0.0 && b >= 0.0
    ensures a * b >= 0.0
  {
  }

  lemma MulPositive(a: real, b: real)
    requires a > 0.0 && b > 0.0
    ensures a * b > 0.0
  {
  }

  /** The shuffle of both key generators: start from `0..n-1` and, for `i`
      from `n-1` down to 1, swap entry `i` with entry
      `floor(draw * (i + 1))`, where the draws stand for successive values of
      `Math.random()`. Whatever the draws, the key is a permutation. */
  method FisherYates(n: nat, draws: seq<real>) returns (key: seq<nat>)
    requires |draws| + 1 >= n
    requires forall k :: 0 <= k < |draws| ==> 0.0 <= draws[k] < 1.0
    ensures IsPermutation(key, n)
  {
    var a := new nat[n](k => k);
    assert a[..] == Iota(n);
    var i := n - 1;
    while i > 0
      invariant -1 <= i < n
      invariant multiset(a[..]) == multiset(Iota(n))
    {
      var r := draws[n - 1 - i];
      PickInRange(r, i);
      var j := (r * (i + 1) as real).Floor;
      a[i], a[j] := a[j], a[i];
      i := i - 1;
    }
    key := a[..];
  }
}
