/** The decoding page, `static/js/decode.js`: manual shift decoding, the
    brute-force shift detector scored against a ten-word dictionary, the
    length gates in front of substitution and permutation decoding, and the
    letter counts of the frequency analysis. */
module Decode {
  import opened Wrappers
  import opened Ascii
  import opened KeyText
  import opened ShiftCipher
  import opened SubstitutionCipher
  import opened PermutationCipher
  import opened Page

  // ---- Scoring a candidate decryption ----

  /** The words whose occurrences score a candidate shift. */
  const Dictionary: seq<string> := ["and", "or", "the", "my", "this", "is", "in", "with", "from", "that"]

  /** The text after a leading run of non-word characters. */
  function SkipNonWord(s: string): (r: string)
    ensures |r| <= |s| && r == s[|s| - |r|..]
    ensures r == [] || IsWordChar(r[0])
    ensures forall i :: 0 <= i < |s| - |r| ==> !IsWordChar(s[i])
  {
    if s != [] && !IsWordChar(s[0]) then
      var r := SkipNonWord(s[1..]);
      assert forall i :: 1 <= i < |s| - |r| ==> s[i] == s[1..][i - 1];
      r
    else s
  }

  /** `s.split(/\W+/)`: the pieces between maximal runs of non-word
      characters, with an empty piece before a leading run and after a
      trailing one. */
  function SplitNonWord(s: string): (r: seq<string>)
    ensures |r| >= 1
    ensures forall k, i :: 0 <= k < |r| && 0 <= i < |r[k]| ==> IsWordChar(r[k][i])
    decreases |s|
  {
    if s == [] then [[]]
    else if IsWordChar(s[0]) then
      var t := SplitNonWord(s[1..]);
      [[s[0]] + t[0]] + t[1..]
    else
      [[]] + SplitNonWord(SkipNonWord(s))
  }

  function Concat(pieces: seq<string>): string {
    if pieces == [] then [] else pieces[0] + Concat(pieces[1..])
  }

  /** The word characters of a text, in order. */
  function WordChars(s: string): string {
    if s == [] then [] else (if IsWordChar(s[0]) then [s[0]] else []) + WordChars(s[1..])
  }

  lemma {:induction false} WordCharsSkip(s: string)
    ensures WordChars(SkipNonWord(s)) == WordChars(s)
    decreases |s|
  {
    if s != [] && !IsWordChar(s[0]) {
      WordCharsSkip(s[1..]);
    }
  }

  /** Splitting loses exactly the separators: the pieces put back together
      are the word characters of the text. */
  lemma {:induction false} SplitKeepsWordChars(s: string)
    ensures Concat(SplitNonWord(s)) == WordChars(s)
    decreases |s|
  {
    if s == [] {
      assert Concat([[]]) == [] + Concat([]);
    } else if IsWordChar(s[0]) {
      var t := SplitNonWord(s[1..]);
      SplitKeepsWordChars(s[1..]);
      var r := [[s[0]] + t[0]] + t[1..];
      assert r[1..] == t[1..];
      assert Concat(t) == t[0] + Concat(t[1..]);
    } else {
      var t := SplitNonWord(SkipNonWord(s));
      SplitKeepsWordChars(SkipNonWord(s));
      WordCharsSkip(s);
      assert ([[]] + t)[1..] == t;
    }
  }

  /** `.filter(w => dictionary.includes(w)).length`. */
  function MatchCount(tokens: seq<string>): (n: nat)
    ensures n <= |tokens|
    ensures n == 0 <==> forall i :: 0 <= i < |tokens| ==> tokens[i] !in Dictionary
    ensures n == |tokens| <==> forall i :: 0 <= i < |tokens| ==> tokens[i] in Dictionary
  {
    if tokens == [] then 0
    else
      var n := MatchCount(tokens[1..]);
      assert forall i :: 1 <= i < |tokens| ==> tokens[i] == tokens[1..][i - 1];
      (if tokens[0] in Dictionary then 1 else 0) + n
  }

  /** One token scores exactly when it is a dictionary word. */
  lemma MatchCountOne(t: string)
    ensures MatchCount([t]) == if t in Dictionary then 1 else 0
  {
    assert [t][1..] == [];
  }

  /** The matches of two runs of tokens add up. */
  lemma {:induction false} MatchCountAppend(a: seq<string>, b: seq<string>)
    ensures MatchCount(a + b) == MatchCount(a) + MatchCount(b)
  {
    if a != [] {
      assert (a + b)[0] == a[0] && (a + b)[1..] == a[1..] + b;
      MatchCountAppend(a[1..], b);
    } else {
      assert a + b == b;
    }
  }

  /** The score of a candidate text: its dictionary words after lower-casing. */
  function Matches(text: string): nat {
    MatchCount(SplitNonWord(Lower(text)))
  }

  /** The score of shift `s`: the matches in the text decoded with it. */
  function Score(text: string, s: int): (n: nat)
    ensures var tokens := SplitNonWord(Lower(ApplyShift(text, -s)));
      && n <= |tokens|
      && (n == 0 <==> forall i :: 0 <= i < |tokens| ==> tokens[i] !in Dictionary)
  {
    Matches(ApplyShift(text, -s))
  }

  /** `b` is the shift the detector keeps and `max` its score: no shift in
      0..25 scores more, and every smaller shift scores strictly less. */
  predicate IsBestShift(text: string, b: int, max: nat) {
    && 0 <= b < 26
    && max == Score(text, b)
    && (forall s :: 0 <= s < 26 ==> Score(text, s) <= max)
    && (forall s :: 0 <= s < b ==> Score(text, s) < max)
  }

  /** The brute-force loop of `handleDecoding` (decode.js:39-49): every shift in
      0..25 is tried, and a later one replaces the best only with strictly
      more matches. */
  method DetectShift(text: string) returns (bestShift: int, maxMatches: nat)
    ensures IsBestShift(text, bestShift, maxMatches)
    ensures maxMatches == 0 ==> bestShift == 0
  {
    bestShift := 0;
    maxMatches := 0;
    var s := 0;
    while s < 26
      invariant 0 <= s <= 26 && 0 <= bestShift < 26 && bestShift <= s
      invariant forall t :: 0 <= t < s ==> Score(text, t) <= maxMatches
      invariant forall t :: 0 <= t < bestShift ==> Score(text, t) < maxMatches
      invariant maxMatches == 0 ==> bestShift == 0
      invariant maxMatches > 0 ==> bestShift < s
      invariant s > 0 ==> maxMatches == Score(text, bestShift)
    {
      var test := ApplyShift(text, -s);
      var matches := Matches(test);
      ghost var before := maxMatches;
      if matches > maxMatches {
        maxMatches := matches;
        bestShift := s;
      }
      forall t | 0 <= t < s + 1 ensures Score(text, t) <= maxMatches {
        if t < s {
          assert Score(text, t) <= before;
        }
      }
      s := s + 1;
    }
  }

  /** The detected shift is determined by the text: the first maximum. */
  lemma BestShiftUnique(text: string, b1: int, m1: nat, b2: int, m2: nat)
    requires IsBestShift(text, b1, m1) && IsBestShift(text, b2, m2)
    ensures b1 == b2 && m1 == m2
  {
    assert Score(text, b1) <= m2 && Score(text, b2) <= m1;
  }

  /** A shift scores what its remainder modulo 26 scores. */
  lemma ScorePeriodic(text: string, s: int)
    ensures Score(text, s) == Score(text, s % 26)
  {
    var s0 := s % 26;
    var q := s / 26;
    assert -s == -s0 + 26 * -q;
    ModMultiple(-s0, -q);
    ShiftPeriodic(text, -s);
    ShiftPeriodic(text, -s0);
    assert ApplyShift(text, -s) == ApplyShift(text, -s0);
  }

  /** Trying 0..25 is enough: no integer shift at all scores more. */
  lemma BestShiftCoversAll(text: string, b: int, max: nat, s: int)
    requires IsBestShift(text, b, max)
    ensures Score(text, s) <= max
  {
    ScorePeriodic(text, s);
  }

  // ---- The handlers ----

  /** Spaces are not letters, so shifting keeps a blank text blank and a
      non-blank one non-blank. */
  lemma ShiftKeepsBlank(text: string, s: int)
    ensures AllSpace(ApplyShift(text, s)) <==> AllSpace(text)
  {
    var r := ApplyShift(text, s);
    forall i | 0 <= i < |text| ensures IsSpace(r[i]) <==> IsSpace(text[i]) {
      if IsLetter(text[i]) {
        assert IsLetter(r[i]);
      }
    }
  }

  /** `handleManualShift`: decoding with shift `s` applies `-s`. The
      `!text.trim()` test is written as `AllSpace`, which it is equivalent to
      (`TrimEmptyIffAllSpace`). */
  function ManualShift(text: string, shiftField: string): (r: Response)
    ensures r.Failed? <==> Trim(text) == []
  {
    UnshiftBy(text, ParseOr(shiftField, 0))
  }

  /** Decoding with a known shift `v`; blank text is refused. */
  function UnshiftBy(text: string, v: int): (r: Response)
    ensures r.Failed? <==> Trim(text) == []
  {
    TrimEmptyIffAllSpace(text);
    if AllSpace(text) then Failed(EmptyText) else Output(ApplyShift(text, -v))
  }

  /** Decoding with the shift that encoded a text gives the text back. */
  lemma UnshiftUndoes(text: string, v: int)
    requires !AllSpace(text)
    ensures UnshiftBy(ApplyShift(text, v), v) == Output(text)
  {
    var c := ApplyShift(text, v);
    ShiftKeepsBlank(text, v);
    ShiftRoundTrip(text, v);
    assert ApplyShift(c, -v) == text;
  }

  /** Manual decoding with the shift field that encoded a text gives the
      text back; a blank text is refused before and after. */
  lemma ManualShiftUndoes(text: string, shiftField: string)
    requires !AllSpace(text)
    ensures ManualShift(ApplyShift(text, ParseOr(shiftField, 0)), shiftField) == Output(text)
  {
    UnshiftUndoes(text, ParseOr(shiftField, 0));
  }

  /** What the brute force shows: the best shift, in the shift field, and
      the text decoded with it. */
  predicate BruteForced(text: string, out: Response, shown: Option<int>) {
    && shown.Some? && IsBestShift(text, shown.value, Score(text, shown.value))
    && out == Output(ApplyShift(text, -shown.value))
  }

  /** The shift branch of `handleDecoding`: the detected shift and the text
      decoded with it. */
  method BruteForce(text: string) returns (out: Response, shown: Option<int>)
    ensures BruteForced(text, out, shown)
  {
    var bestShift, maxMatches := DetectShift(text);
    shown := Some(bestShift);
    out := Output(ApplyShift(text, -bestShift));
  }

  /** `handleDecoding`, with the page's fields passed in. `shownShift` is
      the value written back into the shift field by the brute force. A
      permutation key that passes the length gate must be a permutation. */
  method HandleDecoding(text: string, kind: CipherType,
                        subKeyField: string, permKeyField: string, blockField: string)
    returns (r: Response, shownShift: Option<int>)
    requires kind == Permutation && !AllSpace(text)
             && ParseInt(blockField) == Some(|ParseKey(permKeyField)|)
             ==> ValidFor(KeyValues(ParseKey(permKeyField)), true)
    ensures AllSpace(text) ==> r == Failed(EmptyText) && shownShift == None
    ensures !AllSpace(text) && kind == Shift ==> BruteForced(text, r, shownShift)
    ensures !AllSpace(text) && kind == Substitution ==>
      && shownShift == None
      && r == if |ParseKey(subKeyField)| != 29 then Failed(SubKeyLength)
              else Output(ApplySubstitution(text, KeyValues(ParseKey(subKeyField)), true))
    ensures !AllSpace(text) && kind == Permutation ==>
      && shownShift == None
      && r == if ParseInt(blockField) != Some(|ParseKey(permKeyField)|) then Failed(BlockSizeMismatch)
              else Output(Permuted(text, KeyValues(ParseKey(permKeyField)), true))
  {
    shownShift := None;
    var blank := IsBlank(text);
    if blank {
      return Failed(EmptyText), None;
    }
    match kind {
      case Shift =>
        r, shownShift := BruteForce(text);
      case Substitution =>
        r := SubstitutionDecoding(text, subKeyField);
      case Permutation =>
        r := PermutationDecoding(text, permKeyField, blockField);
    }
  }

  /** The substitution branch of `handleDecoding`: the key must have 29 entries. */
  method SubstitutionDecoding(text: string, subKeyField: string) returns (r: Response)
    ensures r == if |ParseKey(subKeyField)| != 29 then Failed(SubKeyLength)
                 else Output(ApplySubstitution(text, KeyValues(ParseKey(subKeyField)), true))
  {
    var keyArr := ParseKey(subKeyField);
    if |keyArr| != 29 {
      r := Failed(SubKeyLength);
    } else {
      r := Output(ApplySubstitution(text, KeyValues(keyArr), true));
    }
  }

  /** The permutation branch of `handleDecoding`: the block size field must
      equal the key's length. */
  method PermutationDecoding(text: string, permKeyField: string, blockField: string) returns (r: Response)
    requires ParseInt(blockField) == Some(|ParseKey(permKeyField)|)
             ==> ValidFor(KeyValues(ParseKey(permKeyField)), true)
    ensures r == if ParseInt(blockField) != Some(|ParseKey(permKeyField)|) then Failed(BlockSizeMismatch)
                 else Output(Permuted(text, KeyValues(ParseKey(permKeyField)), true))
  {
    var keyArr := ParseKey(permKeyField);
    var m := ParseInt(blockField);
    if m != Some(|keyArr|) {
      r := Failed(BlockSizeMismatch);
    } else {
      var out := ApplyPermutation(text, KeyValues(keyArr), true);
      r := Output(out);
    }
  }

  // ---- Frequency analysis ----

  /** How many characters of `s` are in `a-z`. */
  function LetterCount(s: string): nat {
    if s == [] then 0
    else LetterCount(s[..|s| - 1]) + (if IsLower(s[|s| - 1]) then 1 else 0)
  }

  lemma LetterCountSnoc(p: string, ch: char)
    ensures forall c :: Occurrences(p + [ch], c) == Occurrences(p, c) + if ch == c then 1 else 0
    ensures LetterCount(p + [ch]) == LetterCount(p) + if IsLower(ch) then 1 else 0
  {
    assert (p + [ch])[..|p + [ch]| - 1] == p;
    OccurrencesSnoc(p, ch);
  }

  function Letter(j: nat): char
    requires j < 26
  {
    ('a' as int + j) as char
  }

  /** The sum of the counts of the first `k` letters of the alphabet, a
      letter absent from the map counting 0. */
  function CountsTotal(counts: map<char, nat>, k: nat): nat
    requires k <= 26
  {
    if k == 0 then 0
    else CountsTotal(counts, k - 1) + (if Letter(k - 1) in counts then counts[Letter(k - 1)] else 0)
  }

  /** The sum of the occurrences in `s` of the first `k` letters. */
  function OccurrencesTotal(s: string, k: nat): nat
    requires k <= 26
  {
    if k == 0 then 0 else OccurrencesTotal(s, k - 1) + Occurrences(s, Letter(k - 1))
  }

  lemma {:induction false} OccurrencesTotalStep(p: string, c: char, k: nat)
    requires k <= 26
    ensures OccurrencesTotal(p + [c], k)
         == OccurrencesTotal(p, k) + if IsLower(c) && c as int - 'a' as int < k then 1 else 0
  {
    assert (p + [c])[..|p + [c]| - 1] == p;
    if k > 0 {
      OccurrencesTotalStep(p, c, k - 1);
    }
  }

  lemma {:induction false} NoOccurrences(k: nat)
    requires k <= 26
    ensures OccurrencesTotal([], k) == 0
  {
    if k > 0 { NoOccurrences(k - 1); }
  }

  /** Summing the per-letter counts gives the number of letters. */
  lemma {:induction false} OccurrencesTotalIsLetterCount(s: string)
    ensures OccurrencesTotal(s, 26) == LetterCount(s)
    decreases |s|
  {
    if s == [] {
      NoOccurrences(26);
    } else {
      var p := s[..|s| - 1];
      assert s == p + [s[|s| - 1]];
      OccurrencesTotalIsLetterCount(p);
      OccurrencesTotalStep(p, s[|s| - 1], 26);
      LetterCountSnoc(p, s[|s| - 1]);
    }
  }

  lemma {:induction false} CountsMatch(counts: map<char, nat>, s: string, k: nat)
    requires k <= 26
    requires forall c :: c in counts <==> IsLower(c) && Occurrences(s, c) > 0
    requires forall c :: c in counts ==> counts[c] == Occurrences(s, c)
    ensures CountsTotal(counts, k) == OccurrencesTotal(s, k)
  {
    if k > 0 {
      CountsMatch(counts, s, k - 1);
    }
  }

  /** Counts that agree with the text letter by letter add up to its number
      of letters. */
  lemma CountsAddUp(counts: map<char, nat>, s: string)
    requires forall c :: c in counts <==> IsLower(c) && Occurrences(s, c) > 0
    requires forall c :: c in counts ==> counts[c] == Occurrences(s, c)
    ensures CountsTotal(counts, 26) == LetterCount(s)
  {
    CountsMatch(counts, s, 26);
    OccurrencesTotalIsLetterCount(s);
  }

  datatype Frequencies = Frequencies(counts: map<char, nat>, totalAlpha: nat)

  /** The counting loop of `runFrequencyAnalysis` (decode.js:100-109): each
      character in `a-z` bumps its own count and the common total. */
  method Tally(text: string) returns (counts: map<char, nat>, totalAlpha: nat)
    ensures forall c :: c in counts <==> IsLower(c) && Occurrences(text, c) > 0
    ensures forall c :: c in counts ==> counts[c] == Occurrences(text, c)
    ensures totalAlpha == LetterCount(text)
  {
    counts := map[];
    totalAlpha := 0;
    var i := 0;
    while i < |text|
      invariant 0 <= i <= |text|
      invariant forall c :: c in counts <==> IsLower(c) && Occurrences(text[..i], c) > 0
      invariant forall c :: c in counts ==> counts[c] == Occurrences(text[..i], c)
      invariant totalAlpha == LetterCount(text[..i])
    {
      var ch := text[i];
      assert text[..i + 1] == text[..i] + [ch];
      LetterCountSnoc(text[..i], ch);
      if IsLower(ch) {
        counts := counts[ch := (if ch in counts then counts[ch] else 0) + 1];
        totalAlpha := totalAlpha + 1;
      }
      i := i + 1;
    }
    assert text[..|text|] == text;
  }

  /** `runFrequencyAnalysis` up to the chart: the text is lower-cased, a
      blank text stops the analysis, and the letters are tallied. */
  method CountLetters(field: string) returns (r: Option<Frequencies>)
    ensures r == None <==> AllSpace(Lower(field))
    ensures r.Some? ==>
      && (forall c :: c in r.value.counts <==> IsLower(c) && Occurrences(Lower(field), c) > 0)
      && (forall c :: c in r.value.counts ==> r.value.counts[c] == Occurrences(Lower(field), c))
      && r.value.totalAlpha == LetterCount(Lower(field))
      && r.value.totalAlpha == CountsTotal(r.value.counts, 26)
  {
    var text := Lower(field);
    var blank := IsBlank(text);
    if blank {
      return None;
    }
    var counts, totalAlpha := Tally(text);
    CountsAddUp(counts, text);
    r := Some(Frequencies(counts, totalAlpha));
  }
}
