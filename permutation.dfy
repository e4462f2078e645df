/** The block permutation (transposition) cipher of
    `static/js/permutationCipher.js`. The text is padded with spaces to a
    multiple of the key length `m`, cut into blocks of `m`, and each block is
    rearranged: encoding gathers (`out[i] = block[key[i]]`), decoding
    scatters (`out[key[i]] = block[i]`). */
module PermutationCipher {
  import opened Permutations
  import opened KeyText
  import opened Seqs

  // ---- Arithmetic on block offsets ----

  lemma MulNonneg(a: int, b: int)
    requires a >= 0 && b >= 0
    ensures a * b >= 0
  {
  }

  /** A non-zero multiple of `m` is at least `m` away from zero. */
  lemma MulBound(m: int, d: int)
    requires m >= 1
    ensures d >= 1 ==> m * d >= m
    ensures d <= -1 ==> m * d <= -m
  {
    if d >= 1 {
      MulNonneg(m, d - 1);
      assert m * d == m * (d - 1) + m;
    } else if d <= -1 {
      MulNonneg(m, -d - 1);
      assert m * -d == m * (-d - 1) + m;
    }
  }

  /** Euclidean division is determined by any decomposition `m * q + r` with `0 <= r < m`. */
  lemma DivModUnique(a: int, m: int, q: int, r: int)
    requires m >= 1 && a == m * q + r && 0 <= r < m
    ensures a / m == q && a % m == r
  {
    var q', r' := a / m, a % m;
    assert m * q + r == m * q' + r';
    assert m * q - m * q' == m * (q - q');
    MulBound(m, q - q');
  }

  /** A positive multiple of `m` holds at least one more block. */
  lemma AlignedStep(x: int, m: int)
    requires m >= 1 && x % m == 0 && x > 0
    ensures x >= m && (x - m) % m == 0
  {
    var q := x / m;
    assert x == m * q;
    if q <= 0 { MulNonneg(m, -q); assert false; }
    assert x - m == m * (q - 1);
    DivModUnique(x - m, m, q - 1, 0);
  }

  // ---- Padding ----

  /** `(m - (text.length % m)) % m`. */
  function PaddingNeeded(len: nat, m: nat): nat
    requires m >= 1
  {
    (m - len % m) % m
  }

  /** The padding is what the last partial block lacks. */
  lemma PaddingValue(len: nat, m: nat)
    requires m >= 1
    ensures len % m == 0 ==> PaddingNeeded(len, m) == 0
    ensures len % m != 0 ==> PaddingNeeded(len, m) == m - len % m
  {
    var r := len % m;
    if r == 0 {
      DivModUnique(m, m, 1, 0);
    } else {
      DivModUnique(m - r, m, 0, m - r);
    }
  }

  /** The padded length is `m` times the number of blocks. */
  lemma PaddedBlocks(len: nat, m: nat)
    requires m >= 1
    ensures len + PaddingNeeded(len, m) == m * (if len % m == 0 then len / m else len / m + 1)
  {
    PaddingValue(len, m);
    assert len == m * (len / m) + len % m;
    if len % m != 0 {
      assert m * (len / m + 1) == m * (len / m) + m;
    }
  }

  /** No multiple of `m` between the text length and the padded length. */
  lemma PaddingLeast(len: nat, m: nat, n: nat)
    requires m >= 1 && len <= n && n % m == 0
    ensures len + PaddingNeeded(len, m) <= n
  {
    var top := if len % m == 0 then len / m else len / m + 1;
    PaddingValue(len, m);
    PaddedBlocks(len, m);
    var k := n / m;
    var d := top - k;
    assert n == m * k;
    assert m * top == m * k + m * d;
    MulBound(m, d);
  }

  /** The padding is less than a block, vanishes exactly when the length is
      already a multiple of `m`, and makes the padded length the smallest
      multiple of `m` that is at least the text length. */
  lemma PaddingFacts(len: nat, m: nat)
    requires m >= 1
    ensures PaddingNeeded(len, m) < m
    ensures PaddingNeeded(len, m) == 0 <==> len % m == 0
    ensures (len + PaddingNeeded(len, m)) % m == 0
    ensures forall n: nat :: len <= n && n % m == 0 ==> len + PaddingNeeded(len, m) <= n
  {
    PaddingValue(len, m);
    PaddedBlocks(len, m);
    var top := if len % m == 0 then len / m else len / m + 1;
    DivModUnique(len + PaddingNeeded(len, m), m, top, 0);
    forall n: nat | len <= n && n % m == 0 ensures len + PaddingNeeded(len, m) <= n {
      PaddingLeast(len, m, n);
    }
  }

  /** `" ".repeat(n)`. */
  function Spaces(n: nat): (s: string)
    ensures |s| == n && forall i :: 0 <= i < n ==> s[i] == ' '
  {
    seq(n, i requires 0 <= i < n => ' ')
  }

  function Padded(text: string, m: nat): (p: string)
    requires m >= 1
  {
    text + Spaces(PaddingNeeded(|text|, m))
  }

  // ---- Keys and blocks ----

  /** Every entry is a position inside a block. */
  predicate KeyInRange(key: seq<int>) {
    forall i :: 0 <= i < |key| ==> 0 <= key[i] < |key|
  }

  /** What `applyPermutation` needs of its key to do what it is meant to:
      a non-empty key (an empty one never leaves the blocking loop), entries
      inside the block for encoding, and a permutation for decoding. */
  predicate ValidFor(key: seq<int>, reverse: bool) {
    |key| >= 1 && if reverse then IsPermutation(key, |key|) else KeyInRange(key)
  }

  lemma PermutationInRange(key: seq<int>)
    requires IsPermutation(key, |key|)
    ensures KeyInRange(key)
  {
    PermutationFacts(key, |key|);
  }

  /** Encoding one block: `newBlock[i] = block[keyArray[i]]`. */
  function GatherBlock(block: string, key: seq<int>): string
    requires KeyInRange(key) && |block| == |key|
  {
    seq(|key|, i requires 0 <= i < |key| => block[key[i]])
  }

  /** Decoding one block: `newBlock[keyArray[i]] = block[i]`, read back as
      the character whose key entry names each position. */
  function ScatterBlock(block: string, key: seq<int>): string
    requires IsPermutation(key, |key|) && |block| == |key|
  {
    IndexOfPermutation(key, |key|);
    seq(|key|, p requires 0 <= p < |key| => block[IndexOf(key, p)])
  }

  function PermuteBlock(block: string, key: seq<int>, reverse: bool): (r: string)
    requires ValidFor(key, reverse) && |block| == |key|
    ensures |r| == |key|
  {
    if reverse then ScatterBlock(block, key) else GatherBlock(block, key)
  }

  /** The blocks `paddedText.substring(i, i + m)` for `i = 0, m, 2m, ...`. */
  function Blocks(p: string, m: nat): (bs: seq<string>)
    requires m >= 1 && |p| % m == 0
    ensures forall b :: 0 <= b < |bs| ==> |bs[b]| == m
    decreases |p|
  {
    if p == [] then []
    else
      AlignedStep(|p|, m);
      [p[..m]] + Blocks(p[m..], m)
  }

  /** `blocks.map(...)`: every block permuted on its own. */
  function PermuteEach(bs: seq<string>, key: seq<int>, reverse: bool): (r: seq<string>)
    requires ValidFor(key, reverse)
    requires forall b :: 0 <= b < |bs| ==> |bs[b]| == |key|
    ensures |r| == |bs| && forall b :: 0 <= b < |bs| ==> r[b] == PermuteBlock(bs[b], key, reverse)
  {
    seq(|bs|, b requires 0 <= b < |bs| => PermuteBlock(bs[b], key, reverse))
  }

  /** `join('')`: the pieces one after the other. */
  function Join<T>(parts: seq<seq<T>>): seq<T> {
    if parts == [] then [] else parts[0] + Join(parts[1..])
  }

  /** `blocks.map(...).join('')`. */
  function MapBlocks(bs: seq<string>, key: seq<int>, reverse: bool): string
    requires ValidFor(key, reverse)
    requires forall b :: 0 <= b < |bs| ==> |bs[b]| == |key|
  {
    Join(PermuteEach(bs, key, reverse))
  }

  lemma MapBlocksCons(x: string, ys: seq<string>, key: seq<int>, reverse: bool)
    requires ValidFor(key, reverse) && |x| == |key|
    requires forall b :: 0 <= b < |ys| ==> |ys[b]| == |key|
    ensures forall b :: 0 <= b < |[x] + ys| ==> |([x] + ys)[b]| == |key|
    ensures MapBlocks([x] + ys, key, reverse) == PermuteBlock(x, key, reverse) + MapBlocks(ys, key, reverse)
  {
    var e := PermuteEach([x] + ys, key, reverse);
    assert e[0] == PermuteBlock(x, key, reverse);
    assert e[1..] == PermuteEach(ys, key, reverse);
  }

  /** The value of `applyPermutation(text, keyArray, reverse)`. */
  function Permuted(text: string, key: seq<int>, reverse: bool): (r: string)
    requires ValidFor(key, reverse)
    ensures |r| == |Padded(text, |key|)| == |text| + PaddingNeeded(|text|, |key|)
  {
    PaddingFacts(|text|, |key|);
    MapBlocksLength(Padded(text, |key|), key, reverse);
    MapBlocks(Blocks(Padded(text, |key|), |key|), key, reverse)
  }

  /** The blocking loop of `applyPermutation`: `substring(i, i + m)` for
      `i = 0, m, 2m, ...` while `i < paddedText.length`. */
  method CollectBlocks(paddedText: string, m: nat) returns (blocks: seq<string>)
    requires m >= 1 && |paddedText| % m == 0
    ensures blocks == Blocks(paddedText, m)
  {
    blocks := [];
    var i := 0;
    while i < |paddedText|
      invariant 0 <= i <= |paddedText| && (|paddedText| - i) % m == 0
      invariant blocks + Blocks(paddedText[i..], m) == Blocks(paddedText, m)
      decreases |paddedText| - i
    {
      AlignedStep(|paddedText| - i, m);
      assert paddedText[i..][..m] == paddedText[i..i + m];
      assert paddedText[i..][m..] == paddedText[i + m..];
      blocks := blocks + [paddedText[i..i + m]];
      i := i + m;
    }
  }

  /** The per-block loop of `applyPermutation`, on a fresh `new Array(m)`. */
  method FillBlock(block: string, key: seq<int>, reverse: bool) returns (r: string)
    requires ValidFor(key, reverse) && |block| == |key|
    ensures r == PermuteBlock(block, key, reverse)
  {
    var m := |key|;
    if reverse { PermutationFacts(key, m); }
    var newBlock := new char[m];
    var k := 0;
    while k < m
      invariant 0 <= k <= m
      invariant !reverse ==> forall j :: 0 <= j < k ==> newBlock[j] == block[key[j]]
      invariant reverse ==> forall j :: 0 <= j < k ==> newBlock[key[j]] == block[j]
    {
      if reverse {
        newBlock[key[k]] := block[k];
      } else {
        newBlock[k] := block[key[k]];
      }
      k := k + 1;
    }
    if reverse {
      IndexOfPermutation(key, m);
      forall p | 0 <= p < m ensures newBlock[p] == block[IndexOf(key, p)] {
        var j := IndexOf(key, p);
        assert newBlock[key[j]] == block[j];
      }
    }
    r := newBlock[..];
  }

  /** `applyPermutation(text, keyArray, reverse)`, step by step as the source
      does it: pad, collect the blocks, then permute each block into the result. */
  method ApplyPermutation(text: string, key: seq<int>, reverse: bool) returns (r: string)
    requires ValidFor(key, reverse)
    ensures r == Permuted(text, key, reverse)
  {
    var m := |key|;
    var paddedText := text;
    var paddingNeeded := PaddingNeeded(|text|, m);
    paddedText := paddedText + Spaces(paddingNeeded);
    PaddingFacts(|text|, m);
    assert |paddedText| == |text| + paddingNeeded;
    var blocks := CollectBlocks(paddedText, m);
    r := [];
    var b := 0;
    while b < |blocks|
      invariant 0 <= b <= |blocks|
      invariant r + MapBlocks(blocks[b..], key, reverse) == MapBlocks(blocks, key, reverse)
    {
      var newBlock := FillBlock(blocks[b], key, reverse);
      assert blocks[b..] == [blocks[b]] + blocks[b + 1..];
      MapBlocksCons(blocks[b], blocks[b + 1..], key, reverse);
      r := r + newBlock;
      b := b + 1;
    }
  }

  // ---- Properties ----

  lemma {:induction false} MapBlocksLength(p: string, key: seq<int>, reverse: bool)
    requires ValidFor(key, reverse) && |p| % |key| == 0
    ensures |MapBlocks(Blocks(p, |key|), key, reverse)| == |p|
    decreases |p|
  {
    if p != [] {
      MapBlocksHead(p, key, reverse);
      MapBlocksLength(p[|key|..], key, reverse);
    }
  }

  /** The output is exactly as long as the padded text. */

  /** `s` is a multiple of `m`, counted out block by block. */
  predicate Aligned(s: nat, m: nat)
    decreases s
  {
    s == 0 || (1 <= m <= s && Aligned(s - m, m))
  }

  lemma {:induction false} MultipleAligned(s: nat, m: nat)
    requires m >= 1 && s % m == 0
    ensures Aligned(s, m)
    decreases s
  {
    if s > 0 {
      AlignedStep(s, m);
      MultipleAligned(s - m, m);
    }
  }

  /** The output block that starts at an aligned offset `s` is the input
      block starting there, permuted on its own. */
  lemma BlockAtOffset(p: string, key: seq<int>, reverse: bool, s: nat, i: nat)
    requires ValidFor(key, reverse) && |p| % |key| == 0
    requires Aligned(s, |key|) && s + |key| <= |p| && i < |key|
    ensures |MapBlocks(Blocks(p, |key|), key, reverse)| == |p|
    ensures MapBlocks(Blocks(p, |key|), key, reverse)[s + i] == PermuteBlock(p[s .. s + |key|], key, reverse)[i]
  {
    MapBlocksLength(p, key, reverse);
    BlocksAt(p, |key|, s);
    MapBlocksAt(Blocks(p, |key|), key, reverse, s, i, p[s .. s + |key|]);
  }

  /** Which block an aligned offset falls in. */
  function BlockIndex(s: nat, m: nat): nat
    requires Aligned(s, m)
    decreases s
  {
    if s == 0 then 0 else 1 + BlockIndex(s - m, m)
  }

  /** The block that starts at an aligned offset is the slice starting there. */
  lemma {:induction false} BlocksAt(p: string, m: nat, s: nat)
    requires m >= 1 && |p| % m == 0 && Aligned(s, m) && s + m <= |p|
    ensures BlockIndex(s, m) < |Blocks(p, m)| && Blocks(p, m)[BlockIndex(s, m)] == p[s .. s + m]
    decreases s
  {
    AlignedStep(|p|, m);
    var rest := Blocks(p[m..], m);
    assert Blocks(p, m) == [p[..m]] + rest;
    if s > 0 {
      BlocksAt(p[m..], m, s - m);
      SliceOfSuffix(p, m, s - m, s, s, s + m);
    }
  }

  /** The joined output at offset `s + i` is entry `i` of the permuted block
      that `s` falls in. */
  lemma MapBlocksAt(bs: seq<string>, key: seq<int>, reverse: bool, s: nat, i: nat, block: string)
    requires ValidFor(key, reverse) && forall b :: 0 <= b < |bs| ==> |bs[b]| == |key|
    requires Aligned(s, |key|) && BlockIndex(s, |key|) < |bs| && i < |key|
    requires bs[BlockIndex(s, |key|)] == block
    ensures s + i < |MapBlocks(bs, key, reverse)|
    ensures MapBlocks(bs, key, reverse)[s + i] == PermuteBlock(block, key, reverse)[i]
  {
    JoinAt(PermuteEach(bs, key, reverse), |key|, s, i);
  }

  /** In a join of pieces of length `m`, offset `s + i` is entry `i` of the
      piece that `s` falls in. */
  lemma {:induction false} JoinAt<T>(parts: seq<seq<T>>, m: nat, s: nat, i: nat)
    requires forall b :: 0 <= b < |parts| ==> |parts[b]| == m
    requires Aligned(s, m) && BlockIndex(s, m) < |parts| && i < m
    ensures s + i < |Join(parts)| && Join(parts)[s + i] == parts[BlockIndex(s, m)][i]
    decreases s
  {
    var rest := Join(parts[1..]);
    if s == 0 {
      IndexInFront(parts[0], rest, i);
    } else {
      JoinAt(parts[1..], m, s - m, i);
      IndexBehind(parts[0], rest, s + i);
    }
  }

  /** The output starts with the first block, permuted. */
  lemma MapBlocksHead(p: string, key: seq<int>, reverse: bool)
    requires ValidFor(key, reverse) && |p| % |key| == 0 && p != []
    ensures |p| >= |key| && (|p| - |key|) % |key| == 0
    ensures MapBlocks(Blocks(p, |key|), key, reverse)
         == PermuteBlock(p[..|key|], key, reverse) + MapBlocks(Blocks(p[|key|..], |key|), key, reverse)
  {
    var m := |key|;
    AlignedStep(|p|, m);
    MapBlocksCons(p[..m], Blocks(p[m..], m), key, reverse);
  }

  /** Encoding gathers: `out[s + i] == padded[s + key[i]]` in the block
      starting at each multiple `s` of the block size. */
  lemma EncodeGathers(text: string, key: seq<int>, s: nat, i: nat)
    requires ValidFor(key, false)
    requires s % |key| == 0 && s + |key| <= |Padded(text, |key|)| && i < |key|
    ensures |Permuted(text, key, false)| == |Padded(text, |key|)|
    ensures Permuted(text, key, false)[s + i] == Padded(text, |key|)[s + key[i]]
  {
    var p := Padded(text, |key|);
    PaddingFacts(|text|, |key|);
    assert Permuted(text, key, false) == MapBlocks(Blocks(p, |key|), key, false);
    MultipleAligned(s, |key|);
    BlockAtOffset(p, key, false, s, i);
    assert p[s .. s + |key|][key[i]] == p[s + key[i]];
  }

  /** Decoding scatters: `out[s + key[i]] == in[s + i]` in the block
      starting at each multiple `s` of the block size. */
  lemma DecodeScatters(text: string, key: seq<int>, s: nat, i: nat)
    requires ValidFor(key, true)
    requires s % |key| == 0 && s + |key| <= |Padded(text, |key|)| && i < |key|
    ensures 0 <= key[i] < |key|
    ensures |Permuted(text, key, true)| == |Padded(text, |key|)|
    ensures Permuted(text, key, true)[s + key[i]] == Padded(text, |key|)[s + i]
  {
    var m := |key|;
    PaddingFacts(|text|, m);
    PermutationInRange(key);
    var p := Padded(text, m);
    var out := MapBlocks(Blocks(p, m), key, true);
    assert Permuted(text, key, true) == out;
    MultipleAligned(s, |key|);
    BlockAtOffset(p, key, true, s, key[i]);
    ScatterAt(p[s .. s + m], key, i);
    assert out[s + key[i]] == ScatterBlock(p[s .. s + m], key)[key[i]];
    assert p[s .. s + m][i] == p[s + i];
  }

  /** Decoding a block puts the character at `i` in position `key[i]`. */
  lemma ScatterAt(block: string, key: seq<int>, i: nat)
    requires IsPermutation(key, |key|) && |block| == |key| && i < |key|
    ensures 0 <= key[i] < |key|
    ensures ScatterBlock(block, key)[key[i]] == block[i]
  {
    PermutationInRange(key);
    IndexOfPermutation(key, |key|);
    assert IndexOf(key, key[i]) == i;
  }

  lemma ScatterGather(block: string, key: seq<int>)
    requires IsPermutation(key, |key|) && |block| == |key|
    ensures KeyInRange(key)
    ensures ScatterBlock(GatherBlock(block, key), key) == block
    ensures GatherBlock(ScatterBlock(block, key), key) == block
  {
    PermutationInRange(key);
    IndexOfPermutation(key, |key|);
  }

  /** Taking the top value `n - 1` out of a permutation of `0..n-1` leaves
      a permutation of `0..n-2`. */
  lemma DropTop(key: seq<int>, n: nat)
    requires n >= 1 && IsPermutation(key, n)
    ensures 0 <= IndexOf(key, n - 1) < n == |key|
    ensures key[IndexOf(key, n - 1)] == n - 1
    ensures IsPermutation(key[..IndexOf(key, n - 1)] + key[IndexOf(key, n - 1) + 1..], n - 1)
  {
    assert |multiset(key)| == |key|;
    IotaOnce(n, n - 1);
    assert n - 1 in multiset(key);
    var j := IndexOf(key, n - 1);
    RemoveMultiset(key, j);
    IotaMultiset(n);
  }

  lemma RemoveMultiset<T>(s: seq<T>, j: nat)
    requires j < |s|
    ensures multiset(s[..j] + s[j + 1..]) == multiset(s) - multiset{s[j]}
  {
    assert s == s[..j] + [s[j]] + s[j + 1..];
  }

  lemma IotaMultiset(n: nat)
    requires n >= 1
    ensures multiset(Iota(n - 1)) == multiset(Iota(n)) - multiset{n - 1}
  {
    assert Iota(n) == Iota(n - 1) + [n - 1];
  }

  /** Gathering with one entry `j` pointing at the last position puts the
      last character at `j` and gathers the rest from the shorter block. */
  lemma GatherShape(block: string, key: seq<int>, j: nat, key': seq<int>)
    requires |block| == |key| && j < |key| && key[j] == |key| - 1
    requires key' == key[..j] + key[j + 1..] && KeyInRange(key')
    ensures KeyInRange(key)
    ensures GatherBlock(block, key)
         == GatherBlock(block[..|key| - 1], key')[..j]
            + [block[|key| - 1]]
            + GatherBlock(block[..|key| - 1], key')[j..]
  {
    assert forall i :: 0 <= i < j ==> key[i] == key'[i];
    assert forall i :: j < i < |key| ==> key[i] == key'[i - 1];
  }

  lemma InsertMultiset<T>(s: seq<T>, x: T, j: nat)
    requires j <= |s|
    ensures multiset(s[..j] + [x] + s[j..]) == multiset(s) + multiset{x}
  {
    assert s == s[..j] + s[j..];
  }

  /** Gathering by a permutation only reorders a block: the same characters,
      each as often. */
  lemma {:induction false} GatherMultiset(block: string, key: seq<int>)
    requires IsPermutation(key, |key|) && |block| == |key|
    ensures KeyInRange(key)
    ensures multiset(GatherBlock(block, key)) == multiset(block)
    decreases |key|
  {
    PermutationInRange(key);
    var n := |key|;
    if n > 0 {
      DropTop(key, n);
      var j := IndexOf(key, n - 1);
      var key' := key[..j] + key[j + 1..];
      PermutationInRange(key');
      var block' := block[..n - 1];
      GatherMultiset(block', key');
      GatherShape(block, key, j, key');
      var g' := GatherBlock(block', key');
      InsertMultiset(g', block[n - 1], j);
      LastMultiset(block);
    }
  }

  lemma LastMultiset<T>(s: seq<T>)
    requires s != []
    ensures multiset(s) == multiset(s[..|s| - 1]) + multiset{s[|s| - 1]}
  {
    assert s == s[..|s| - 1] + [s[|s| - 1]];
  }

  /** Each output block, in either direction, holds the characters of the
      matching input block: blocks are permuted independently. */
  lemma BlockMultiset(text: string, key: seq<int>, reverse: bool, s: nat)
    requires IsPermutation(key, |key|) && |key| >= 1
    requires s % |key| == 0 && s + |key| <= |Padded(text, |key|)|
    ensures ValidFor(key, reverse)
    ensures |Permuted(text, key, reverse)| == |Padded(text, |key|)|
    ensures multiset(Permuted(text, key, reverse)[s .. s + |key|]) == multiset(Padded(text, |key|)[s .. s + |key|])
  {
    PermutationInRange(key);
    var m := |key|;
    var p := Padded(text, m);
    PaddingFacts(|text|, m);
    var blk := p[s .. s + m];
    var out := Permuted(text, key, reverse);
    MapBlocksLength(p, key, reverse);
    MultipleAligned(s, m);
    forall i | 0 <= i < m ensures out[s .. s + m][i] == PermuteBlock(blk, key, reverse)[i] {
      BlockAtOffset(p, key, reverse, s, i);
    }
    assert out[s .. s + m] == PermuteBlock(blk, key, reverse);
    GatherMultiset(blk, key);
    if reverse {
      ScatterGather(blk, key);
      GatherMultiset(ScatterBlock(blk, key), key);
    }
  }

  lemma BlocksCons(x: string, y: string, m: nat)
    requires m >= 1 && |x| == m && |y| % m == 0
    ensures (|x + y|) % m == 0
    ensures Blocks(x + y, m) == [x] + Blocks(y, m)
  {
    DivModUnique(|x + y|, m, |y| / m + 1, 0);
    assert (x + y)[..m] == x && (x + y)[m..] == y;
  }

  /** Decoding an encoded aligned text block by block restores it, and so
      does encoding a decoded one. */
  lemma {:induction false} BlocksRoundTrip(p: string, key: seq<int>, first: bool)
    requires IsPermutation(key, |key|) && |key| >= 1 && |p| % |key| == 0
    ensures ValidFor(key, true) && ValidFor(key, false)
    ensures |MapBlocks(Blocks(p, |key|), key, first)| % |key| == 0
    ensures MapBlocks(Blocks(MapBlocks(Blocks(p, |key|), key, first), |key|), key, !first) == p
    decreases |p|
  {
    PermutationInRange(key);
    var m := |key|;
    MapBlocksLength(p, key, first);
    if p != [] {
      MapBlocksHead(p, key, first);
      BlocksRoundTrip(p[m..], key, first);
      var head := PermuteBlock(p[..m], key, first);
      var rest := MapBlocks(Blocks(p[m..], m), key, first);
      MapBlocksLength(p[m..], key, first);
      BlocksCons(head, rest, m);
      MapBlocksCons(head, Blocks(rest, m), key, !first);
      ScatterGather(p[..m], key);
      assert PermuteBlock(head, key, !first) == p[..m];
      assert p[..m] + p[m..] == p;
    }
  }

  /** Decoding what was encoded gives the padded text back, and the text
      itself exactly when its length is a multiple of the block size; encoding what
      was decoded gives the padded text back too. */
  lemma PermutationRoundTrip(text: string, key: seq<int>)
    requires IsPermutation(key, |key|) && |key| >= 1
    ensures ValidFor(key, true) && ValidFor(key, false)
    ensures Permuted(Permuted(text, key, false), key, true) == Padded(text, |key|)
    ensures Permuted(Permuted(text, key, true), key, false) == Padded(text, |key|)
    ensures Permuted(Permuted(text, key, false), key, true) == text <==> |text| % |key| == 0
  {
    PermutationInRange(key);
    var m := |key|;
    var p := Padded(text, m);
    PaddingFacts(|text|, m);
    BlocksRoundTrip(p, key, false);
    BlocksRoundTrip(p, key, true);
    var e := Permuted(text, key, false);
    var d := Permuted(text, key, true);
    PaddingFacts(|e|, m);
    PaddingFacts(|d|, m);
    assert Padded(e, m) == e;
    assert Padded(d, m) == d;
    if |text| % m == 0 { assert p == text; } else { assert |p| > |text|; }
  }

  /** `generateRandomPermKey(m)`: a shuffled `0..m-1`, returned comma-joined. */
  method GenerateRandomPermKey(m: nat, draws: seq<real>) returns (keyText: string)
    requires |draws| + 1 >= m
    requires forall k :: 0 <= k < |draws| ==> 0.0 <= draws[k] < 1.0
    ensures exists key: seq<nat> :: IsPermutation(key, m) && keyText == JoinKey(key)
  {
    var key := FisherYates(m, draws);
    keyText := JoinKey(key);
  }
}
