/** The known-plaintext attacks of `handlePlaintextAttack` in
    `static/js/attack.js`, with the page's fields passed in and the status
    messages replaced by a tagged outcome. */
module Attack {
  import opened Ascii
  import opened ShiftCipher
  import opened Permutations
  import opened PermutationCipher

  /** What the attack reports: a key confirmed on the whole text, a key that
      fits only part of it, or one of the error messages. */
  datatype Outcome<K> =
    | Verified(key: K)
    | Partial(key: K)
    | Impossible      // "Character mapping impossible."
    | TooShort        // "Plaintext too short for block size m."
    | NoLetters       // a text without an ASCII letter: nothing is reported
    | MissingInput    // "Both fields required."

  /** The position matched by `text.match(/[a-z]/i)`, or -1. */
  function FirstLetterIndex(s: string): (r: int)
    ensures -1 <= r < |s|
    ensures r == -1 <==> forall i :: 0 <= i < |s| ==> !IsLetter(s[i])
    ensures r >= 0 ==> IsLetter(s[r]) && forall j :: 0 <= j < r ==> !IsLetter(s[j])
  {
    if s == [] then -1
    else if IsLetter(s[0]) then 0
    else
      var r := FirstLetterIndex(s[1..]);
      if r < 0 then -1 else r + 1
  }

  /** Two texts with letters at the same places have their first letter at
      the same place. */
  lemma FirstLetterSamePlaces(s: string, t: string)
    requires |s| == |t|
    requires forall i :: 0 <= i < |s| ==> (IsLetter(s[i]) <==> IsLetter(t[i]))
    ensures FirstLetterIndex(s) == FirstLetterIndex(t)
  {
  }

  /** The code point of a letter lower-cased, less `'a'`, is its offset. */
  lemma LowerOffset(c: char)
    requires IsLetter(c)
    ensures ToLower(c) as int - 'a' as int == Offset(c)
  {
  }

  /** Shift recovery (attack.js:11-38): the first letter of each text,
      lower-cased, gives `(cCode - pCode + 26) % 26`; the whole plaintext is
      then shifted by it and compared with the ciphertext. The operand of
      `%` is positive, so JavaScript's remainder agrees with Dafny's. */
  function AttackShift(plain: string, cipher: string): (r: Outcome<int>)
    ensures r == MissingInput <==> plain == [] || cipher == []
    ensures r == NoLetters <==>
      plain != [] && cipher != [] && (FirstLetterIndex(plain) < 0 || FirstLetterIndex(cipher) < 0)
    ensures !r.Impossible? && !r.TooShort?
    ensures r.Verified? || r.Partial? ==>
      FirstLetterIndex(plain) >= 0 && FirstLetterIndex(cipher) >= 0 && 0 <= r.key < 26 &&
      Offset(ApplyShift(plain, r.key)[FirstLetterIndex(plain)]) == Offset(cipher[FirstLetterIndex(cipher)])
    ensures r.Verified? ==> ApplyShift(plain, r.key) == cipher
    ensures r.Partial? ==> ApplyShift(plain, r.key) != cipher
  {
    if plain == [] || cipher == [] then MissingInput
    else
      var pi, ci := FirstLetterIndex(plain), FirstLetterIndex(cipher);
      if pi < 0 || ci < 0 then NoLetters
      else
        var shift := LetterShift(plain[pi], cipher[ci]);
        var shifted := ApplyShift(plain, shift);
        assert Offset(shifted[pi]) == Offset(cipher[ci]);
        if shifted == cipher then Verified(shift) else Partial(shift)
  }

  /** `(cCode - pCode + 26) % 26` for the lower-cased codes of two letters:
      the rotation that takes the first letter to the second. */
  function LetterShift(p: char, c: char): (k: int)
    requires IsLetter(p) && IsLetter(c)
    ensures 0 <= k < 26 && (Offset(p) + k) % 26 == Offset(c)
  {
    var pCode := ToLower(p) as int;
    var cCode := ToLower(c) as int;
    var shift := (cCode - pCode + 26) % 26;
    LowerOffset(p);
    LowerOffset(c);
    var o := Offset(p);
    assert (o + shift) % 26 == Offset(c) by {
      var d := Offset(c) - o + 26;
      var q := d / 26;
      assert d == 26 * q + shift;
      assert o + shift == Offset(c) + 26 * (1 - q);
      ModMultiple(Offset(c), 1 - q);
    }
    shift
  }

  /** A residue in 0..25 that moves `o` where `s` does is `s % 26`. */
  lemma SameResidue(o: int, k: int, s: int)
    requires 0 <= k < 26 && (o + k) % 26 == (o + s) % 26
    ensures k == s % 26
  {
    var q := (o + s) / 26;
    var p := (o + k) / 26;
    assert o + s == 26 * q + (o + k) % 26;
    assert o + k == 26 * p + (o + k) % 26;
    assert s == k + 26 * (q - p);
    ModMultiple(k, q - p);
    ModUnique(k, 0, k);
  }

  /** Shifting a letter by `k` in 0..25 lands where shifting it by `s`
      does only when `k == s % 26`. */
  lemma SameShift(c: char, k: int, s: int)
    requires IsLetter(c) && 0 <= k < 26
    requires IsLetter(ShiftChar(c, k)) && IsLetter(ShiftChar(c, s))
    requires Offset(ShiftChar(c, k)) == Offset(ShiftChar(c, s))
    ensures k == s % 26
  {
    ShiftCharLetter(c, k);
    ShiftCharLetter(c, s);
    SameResidue(Offset(c), k, s);
  }

  /** Completeness: a ciphertext that really is `applyShift(plain, s)` of a
      plaintext with a letter is recognised, with the key `s` reduced to 0..25. */
  lemma AttackShiftRecovers(plain: string, s: int)
    requires FirstLetterIndex(plain) >= 0
    ensures AttackShift(plain, ApplyShift(plain, s)) == Verified(s % 26)
  {
    var cipher := ApplyShift(plain, s);
    FirstLetterSamePlaces(plain, cipher);
    var pi := FirstLetterIndex(plain);
    assert FirstLetterIndex(cipher) == pi;
    var r := AttackShift(plain, cipher);
    assert r.Verified? || r.Partial?;
    var k := r.key;
    var u := ApplyShift(plain, k);
    assert u[pi] == ShiftChar(plain[pi], k);
    assert cipher[pi] == ShiftChar(plain[pi], s);
    ShiftCharLetter(plain[pi], k);
    ShiftCharLetter(plain[pi], s);
    assert Offset(u[pi]) == Offset(cipher[pi]);
    SameShift(plain[pi], k, s);
    ShiftPeriodic(plain, s);
    assert u == cipher;
  }

  /** The first block of the ciphertext can be located in the first block of
      the plaintext: every position below `m` exists in the ciphertext (a
      missing one reads as `undefined`, which is never found) and its
      character occurs in `plain[..m]`. */
  predicate Mappable(plain: string, cipher: string, m: nat)
    requires m <= |plain|
  {
    m <= |cipher| && forall i :: 0 <= i < m ==> cipher[i] in plain[..m]
  }

  /** The key `keyArr` that the recovery loop pushes: for each ciphertext
      position, the first plaintext position holding that character. */
  function RecoveredKey(plain: string, cipher: string, m: nat): (key: seq<int>)
    requires m <= |plain| && Mappable(plain, cipher, m)
    ensures |key| == m && KeyInRange(key)
    ensures forall i :: 0 <= i < m ==> plain[key[i]] == cipher[i]
    ensures forall i, j :: 0 <= i < m && 0 <= j < key[i] ==> plain[j] != cipher[i]
  {
    var key := seq(m, i requires 0 <= i < m => IndexOf(plain[..m], cipher[i]));
    assert forall i, j :: 0 <= i < m && 0 <= j < key[i] ==> plain[..m][..key[i]][j] == plain[j];
    key
  }

  /** Permutation recovery (attack.js:40-74), with the loop that pushes into
      `keyArr` and leaves by `throw` at the first character it cannot find. */
  method AttackPermutation(plain: string, cipher: string, m: int) returns (r: Outcome<seq<int>>)
    requires m >= 1
    ensures r == MissingInput <==> plain == [] || cipher == []
    ensures r == TooShort <==> plain != [] && cipher != [] && |plain| < m
    ensures r == Impossible <==>
      plain != [] && cipher != [] && |plain| >= m && !Mappable(plain, cipher, m)
    ensures !r.NoLetters?
    ensures r.Verified? || r.Partial? ==>
      m <= |plain| && Mappable(plain, cipher, m) && r.key == RecoveredKey(plain, cipher, m)
    ensures r.Verified? ==> Trim(Permuted(plain, r.key, false)) == Trim(cipher)
    ensures r.Partial? ==> Trim(Permuted(plain, r.key, false)) != Trim(cipher)
  {
    if plain == [] || cipher == [] {
      return MissingInput;
    }
    if |plain| < m {
      return TooShort;
    }
    var pBlock := plain[..m];
    var cBlock := if |cipher| < m then cipher else cipher[..m];
    var keyArr: seq<int> := [];
    var i := 0;
    while i < m
      invariant 0 <= i <= m && |keyArr| == i
      invariant i <= |cipher|
      invariant forall j :: 0 <= j < i ==> cipher[j] in pBlock
      invariant forall j :: 0 <= j < i ==> keyArr[j] == IndexOf(pBlock, cipher[j])
    {
      if i >= |cBlock| {
        return Impossible;
      }
      var originalIndex := IndexOf(pBlock, cBlock[i]);
      if originalIndex == -1 {
        return Impossible;
      }
      keyArr := keyArr + [originalIndex];
      i := i + 1;
    }
    assert keyArr == RecoveredKey(plain, cipher, m);
    var testCipher := ApplyPermutation(plain, keyArr, false);
    if Trim(testCipher) == Trim(cipher) {
      r := Verified(keyArr);
    } else {
      r := Partial(keyArr);
    }
  }

  /** Completeness: when the plaintext's first block has no repeated
      character, encrypting with any permutation key lets the attack map the
      first block and recover exactly that key. */
  lemma PermutationRecovers(plain: string, key: seq<int>)
    requires IsPermutation(key, |key|) && 1 <= |key| <= |plain|
    requires forall i, j :: 0 <= i < j < |key| ==> plain[i] != plain[j]
    ensures ValidFor(key, false)
    ensures Mappable(plain, Permuted(plain, key, false), |key|)
    ensures RecoveredKey(plain, Permuted(plain, key, false), |key|) == key
  {
    var m := |key|;
    PermutationInRange(key);
    var cipher := Permuted(plain, key, false);
    var pBlock := plain[..m];
    forall i | 0 <= i < m ensures cipher[i] == pBlock[key[i]] {
      EncodeGathers(plain, key, 0, i);
    }
    forall i | 0 <= i < m ensures IndexOf(pBlock, cipher[i]) == key[i] {
      IndexOfUnique(pBlock, cipher[i], key[i]);
    }
  }
}
