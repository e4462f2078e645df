/** The substitution cipher of `static/js/substitutionCipher.js`, over the
    29-symbol alphabet `a`-`z`, space, comma, period. The text is lower-cased
    and every character outside the alphabet is dropped before the key is
    applied. */
module SubstitutionCipher {
  import opened Ascii
  import opened Permutations
  import opened KeyText

  function Z29Symbol(i: int): char
    requires 0 <= i < 29
  {
    if i < 26 then ('a' as int + i) as char else if i == 26 then ' ' else if i == 27 then ',' else '.'
  }

  function Alphabet(): (r: string)
    ensures |r| == 29 && forall i :: 0 <= i < 29 ==> r[i] == Z29Symbol(i)
  {
    seq(29, i requires 0 <= i < 29 => Z29Symbol(i))
  }

  /** The alphabet `z29`, built symbol by symbol (`Z29Literal` spells it out). */
  const Z29: string := Alphabet()

  lemma Z29Literal()
    ensures Z29 == "abcdefghijklmnopqrstuvwxyz ,."
  {
  }

  /** Position of a symbol in `Z29`, or -1, by arithmetic. */
  function Z29Index(c: char): int {
    if 'a' <= c <= 'z' then c as int - 'a' as int
    else if c == ' ' then 26 else if c == ',' then 27 else if c == '.' then 28 else -1
  }

  /** `z29.includes(c)`, by arithmetic (see `IndexOfZ29`). */
  predicate InZ29(c: char) { Z29Index(c) >= 0 }

  lemma Z29Indexed()
    ensures |Z29| == 29
    ensures forall i :: 0 <= i < 29 ==> Z29Index(Z29[i]) == i
  {
  }

  lemma IndexOfZ29Member(c: char)
    requires InZ29(c)
    ensures c in Z29 && IndexOf(Z29, c) == Z29Index(c)
  {
    var j := Z29Index(c);
    Z29At(c);
    forall i | 0 <= i < j ensures Z29[i] != c {
      Z29Elsewhere(c, i);
    }
    IndexOfUnique(Z29, c, j);
  }

  lemma Z29At(c: char)
    requires InZ29(c)
    ensures Z29Index(c) < |Z29| && Z29[Z29Index(c)] == c
  {
    Z29Indexed();
  }

  lemma Z29Elsewhere(c: char, i: int)
    requires 0 <= i < |Z29| && i != Z29Index(c)
    ensures Z29[i] != c
  {
    Z29Indexed();
  }

  lemma AbsentFromZ29(c: char)
    requires !InZ29(c)
    ensures Z29Index(c) == -1
    ensures c !in Z29 && IndexOf(Z29, c) == -1
  {
    Z29Indexed();
    forall i | 0 <= i < |Z29| ensures Z29[i] != c {
      Z29Elsewhere(c, i);
    }
  }

  /** `z29.indexOf(c)` is the arithmetic position of `c`. */
  lemma IndexOfZ29(c: char)
    ensures IndexOf(Z29, c) == Z29Index(c)
    ensures c in Z29 <==> InZ29(c)
  {
    if InZ29(c) {
      IndexOfZ29Member(c);
    } else {
      AbsentFromZ29(c);
    }
  }

  /** The lower-cased text with every character outside `Z29` dropped
      (`text.toLowerCase().split('').filter(c => z29.includes(c))`). */
  function Clean(text: string): (r: string)
    ensures |r| <= |text|
    ensures forall i :: 0 <= i < |r| ==> InZ29(r[i])
  {
    if text == [] then []
    else
      var c := ToLower(text[0]);
      (if InZ29(c) then [c] else []) + Clean(text[1..])
  }

  /** One character is kept, lower-cased, exactly when its lower-case form is in `Z29`. */
  lemma CleanOne(c: char)
    ensures Clean([c]) == if InZ29(ToLower(c)) then [ToLower(c)] else []
  {
    assert [c][1..] == [];
  }

  /** Cleaning works character by character: the cleaned parts of a text, in order. */
  lemma {:induction false} CleanAppend(a: string, b: string)
    ensures Clean(a + b) == Clean(a) + Clean(b)
  {
    if a == [] {
      assert a + b == b;
    } else {
      assert (a + b)[0] == a[0] && (a + b)[1..] == a[1..] + b;
      CleanAppend(a[1..], b);
      var h := if InZ29(ToLower(a[0])) then [ToLower(a[0])] else [];
      assert h + (Clean(a[1..]) + Clean(b)) == (h + Clean(a[1..])) + Clean(b);
    }
  }

  /** Text already drawn from `Z29` comes through cleaning unchanged. */
  lemma {:induction false} CleanZ29(text: string)
    requires forall i :: 0 <= i < |text| ==> InZ29(text[i])
    ensures Clean(text) == text
  {
    if text != [] {
      assert ToLower(text[0]) == text[0];
      CleanZ29(text[1..]);
      assert [text[0]] + text[1..] == text;
    }
  }

  /** `z29[k]` as `join` renders it: the symbol, or nothing when `k` is
      outside `0..28` and the lookup is `undefined`. */
  function SymbolAt(k: int): string {
    if 0 <= k < |Z29| then [Z29[k]] else []
  }

  /** The `map` callback of `applySubstitution` for one cleaned symbol. */
  function SubstituteSymbol(c: char, key: seq<int>, reverse: bool): (r: string)
    ensures |r| <= 1 && forall i :: 0 <= i < |r| ==> r[i] in Z29
    ensures !reverse ==>
      (r != [] <==> 0 <= IndexOf(Z29, c) < |key| && 0 <= key[IndexOf(Z29, c)] < |Z29|)
    ensures reverse ==> (r != [] <==> 0 <= IndexOf(key, IndexOf(Z29, c)) < |Z29|)
  {
    var index := IndexOf(Z29, c);
    if reverse then SymbolAt(IndexOf(key, index))
    else if 0 <= index < |key| then SymbolAt(key[index])
    else []
  }

  function SubstituteAll(s: string, key: seq<int>, reverse: bool): (r: string)
    ensures |r| <= |s|
  {
    if s == [] then [] else SubstituteSymbol(s[0], key, reverse) + SubstituteAll(s[1..], key, reverse)
  }

  /** `applySubstitution(text, keyArray, reverse)`. The key is not checked:
      an entry outside `0..28` (or a missing one) makes its symbol vanish. */
  function ApplySubstitution(text: string, key: seq<int>, reverse: bool): (r: string)
    ensures |r| <= |Clean(text)|
  {
    SubstituteAll(Clean(text), key, reverse)
  }

  /** Forward image of one symbol under a permutation key: `z29[key[z29.indexOf(c)]]`. */
  function Encipher(c: char, key: seq<int>): (d: char)
    requires InZ29(c) && IsPermutation(key, 29)
  {
    IndexOfZ29(c);
    PermutationFacts(key, 29);
    Z29Indexed();
    Z29[key[IndexOf(Z29, c)]]
  }

  /** Inverse image of one symbol: `z29[p]` for the first `p` with
      `key[p] == z29.indexOf(c)`. */
  function Decipher(c: char, key: seq<int>): (d: char)
    requires InZ29(c) && IsPermutation(key, 29)
  {
    IndexOfZ29(c);
    IndexOfPermutation(key, 29);
    Z29Indexed();
    Z29[IndexOf(key, IndexOf(Z29, c))]
  }

  lemma {:induction false} SubstituteAllPermutation(s: string, key: seq<int>, reverse: bool)
    requires forall i :: 0 <= i < |s| ==> InZ29(s[i])
    requires IsPermutation(key, 29)
    ensures |SubstituteAll(s, key, reverse)| == |s|
    ensures forall k :: 0 <= k < |s| ==>
      SubstituteAll(s, key, reverse)[k] == if reverse then Decipher(s[k], key) else Encipher(s[k], key)
  {
    if s != [] {
      SubstituteAllPermutation(s[1..], key, reverse);
      SymbolPermutation(s[0], key, reverse);
    }
  }

  /** Under a permutation key one symbol of `Z29` yields exactly one symbol. */
  lemma SymbolPermutation(c: char, key: seq<int>, reverse: bool)
    requires InZ29(c) && IsPermutation(key, 29)
    ensures SubstituteSymbol(c, key, reverse) == [if reverse then Decipher(c, key) else Encipher(c, key)]
  {
    IndexOfZ29(c);
    Z29Indexed();
    if reverse {
      IndexOfPermutation(key, 29);
    } else {
      PermutationFacts(key, 29);
    }
  }

  /** With a permutation key, every kept character yields exactly one output
      symbol: forward mode looks up `key[indexOf(c)]`, reverse mode the first
      `p` with `key[p] == indexOf(c)`. */
  lemma SubstitutionPointwise(text: string, key: seq<int>, reverse: bool)
    requires IsPermutation(key, 29)
    ensures |ApplySubstitution(text, key, reverse)| == |Clean(text)|
    ensures forall k :: 0 <= k < |Clean(text)| ==>
      ApplySubstitution(text, key, reverse)[k] ==
        if reverse then Decipher(Clean(text)[k], key) else Encipher(Clean(text)[k], key)
  {
    SubstituteAllPermutation(Clean(text), key, reverse);
  }

  /** With a permutation key the output is made of lower-case `Z29` symbols only. */
  lemma SubstitutionInAlphabet(text: string, key: seq<int>, reverse: bool)
    requires IsPermutation(key, 29)
    ensures forall k :: 0 <= k < |ApplySubstitution(text, key, reverse)| ==>
      InZ29(ApplySubstitution(text, key, reverse)[k])
  {
    var c := Clean(text);
    SubstituteAllPermutation(c, key, reverse);
    forall k | 0 <= k < |c| ensures InZ29(ApplySubstitution(text, key, reverse)[k]) {
      DecipherEncipher(c[k], key);
    }
  }

  lemma DecipherEncipher(c: char, key: seq<int>)
    requires InZ29(c) && IsPermutation(key, 29)
    ensures InZ29(Encipher(c, key)) && InZ29(Decipher(c, key))
    ensures Decipher(Encipher(c, key), key) == c
    ensures Encipher(Decipher(c, key), key) == c
  {
    IndexOfZ29(c);
    PermutationFacts(key, 29);
    IndexOfPermutation(key, 29);
    Z29Indexed();
    var e := Encipher(c, key);
    IndexOfZ29(e);
    var d := Decipher(c, key);
    IndexOfZ29(d);
  }

  /** Applying the key in one direction and then in the other gives back
      the cleaned text. */
  lemma SubstitutionUndone(text: string, key: seq<int>, reverse: bool)
    requires IsPermutation(key, 29)
    ensures ApplySubstitution(ApplySubstitution(text, key, reverse), key, !reverse) == Clean(text)
  {
    var e := ApplySubstitution(text, key, reverse);
    SubstitutionInAlphabet(text, key, reverse);
    CleanZ29(e);
    SymbolsUndone(Clean(text), key, reverse);
  }

  /** On symbols of `Z29` the two directions of a permutation key undo each other. */
  lemma {:induction false} SymbolsUndone(c: string, key: seq<int>, reverse: bool)
    requires forall i :: 0 <= i < |c| ==> InZ29(c[i])
    requires IsPermutation(key, 29)
    ensures SubstituteAll(SubstituteAll(c, key, reverse), key, !reverse) == c
  {
    if c != [] {
      var d := if reverse then Decipher(c[0], key) else Encipher(c[0], key);
      SymbolPermutation(c[0], key, reverse);
      DecipherEncipher(c[0], key);
      SymbolPermutation(d, key, !reverse);
      var rest := SubstituteAll(c[1..], key, reverse);
      SymbolsUndone(c[1..], key, reverse);
      assert SubstituteAll(c, key, reverse) == [d] + rest;
      assert ([d] + rest)[0] == d && ([d] + rest)[1..] == rest;
      assert [c[0]] + c[1..] == c;
    }
  }

  /** Decoding undoes encoding, and encoding undoes decoding, up to the
      cleaning both perform: the result is the text lower-cased and filtered. */
  lemma SubstitutionRoundTrip(text: string, key: seq<int>)
    requires IsPermutation(key, 29)
    ensures ApplySubstitution(ApplySubstitution(text, key, false), key, true) == Clean(text)
    ensures ApplySubstitution(ApplySubstitution(text, key, true), key, false) == Clean(text)
  {
    SubstitutionUndone(text, key, false);
    SubstitutionUndone(text, key, true);
  }

  /** `generateRandomSubKey()`: a shuffled `0..28`, returned comma-joined. */
  method GenerateRandomSubKey(draws: seq<real>) returns (keyText: string)
    requires |draws| >= |Z29| - 1
    requires forall k :: 0 <= k < |draws| ==> 0.0 <= draws[k] < 1.0
    ensures exists key: seq<nat> :: IsPermutation(key, 29) && keyText == JoinKey(key)
  {
    Z29Indexed();
    var key := FisherYates(|Z29|, draws);
    keyText := JoinKey(key);
  }
}
