# Classical-cipher toolkit and gematria arithmetic, in Dafny

This project models the logic behind the web pages of the Encoder-Decoder
repository. The pages are written in JavaScript. The model covers:

- the shift (Caesar) cipher `applyShift`;
- the substitution cipher over the 29-symbol alphabet `z29` (`a`-`z`, space, comma, period) and its random key generator;
- the block permutation (transposition) cipher and its random key generator;
- the known-plaintext attacks on the shift and permutation ciphers;
- the decoding page: manual shift, brute-force shift detection, key-length gates, letter counting;
- the encoding page: key-string parsing, defaults, length gates;
- the integer side of the gematria page: the square-shell mapper, word values, segment and global totals, the letter count, the first-seen frequency table, the running cumulative sum.

One Dafny module per source file:
`ShiftCipher`, `SubstitutionCipher`, `PermutationCipher`, `Attack`, `Decode`, `Encode`, `Gematria`.
They share leaf modules:

- `Ascii`: character classes, ASCII lower-casing, `trim`;
- `KeyText`: `parseInt`, comma splitting, key serialisation;
- `Permutations`: `Iota`, permutations, `indexOf`, Fisher-Yates;
- `Page`: field defaults and handler responses;
- `Wrappers`: `Option`;
- `Seqs`: small facts about sequences that the proofs share.

How each kind of code is modelled:

- **Pure `split`/`map`/`join` code** becomes functions, with lemmas about them: the shift cipher, `applySubstitution`, key parsing, the shell mapper.
- **Code that builds results in loops** becomes methods with loop invariants. Each method is proved equal to a specification function, and the properties are proved about that function. This covers:
  - Fisher-Yates shuffles;
  - the blocking and block-filling loops of `applyPermutation`;
  - the key-recovery loop of the permutation attack;
  - the brute-force detector;
  - the letter counter;
  - the nested loops of `performCalculation`.
- **Page handlers** become methods. They take the text of each input field as a parameter and return a `Response`: output text, or one of the errors the page shows.
- **`Math.random`** is a sequence of supplied reals in `[0, 1)`, one per swap.

What the code does, and so what the model does, in a few places where a reader might expect more:

- There is no substitution known-plaintext attack: `attack.js` imports only the shift and permutation ciphers.
- There is one substitution variant. It lower-cases the text and drops every character outside `z29`.
- An attack ends in one of six outcomes (`Attack.Outcome`): a verified key, a partial key, "Character mapping impossible.", a plaintext too short for the block size, a text without letters (nothing is reported), and "Both fields required." for an empty input.
- Malformed keys are not rejected by the pages. The model states the key conditions as preconditions instead.

## Model

| member | source | states |
|---|---|---|
| ShiftCipher.JsRem26 | static/js/shiftCipher_eng.js:9 | JavaScript's `s % 26` lies strictly between -26 and 26 and has the sign of `s` |
| ShiftCipher.ApplyShift | static/js/shiftCipher_eng.js:4-13 | the output is as long as the input; non-letters are unchanged; upper and lower case are kept; a letter at offset `o` lands at offset `(o + s) mod 26`, Euclidean, also for negative `s` |
| ShiftCipher.ShiftCharLetter | static/js/shiftCipher_eng.js:6-9 | one letter keeps its case and moves to offset `(o + s) mod 26` |
| ShiftCipher.ShiftCompose | static/js/shiftCipher_eng.js:9 | shifting by `a` and then by `b` is shifting by `a + b` |
| ShiftCipher.ShiftPeriodic | static/js/shiftCipher_eng.js:9 | the output depends only on `s mod 26` |
| ShiftCipher.ShiftIdentity | static/js/shiftCipher_eng.js:9 | a shift by a multiple of 26 returns the text unchanged |
| ShiftCipher.ShiftRoundTrip | static/js/shiftCipher_eng.js:4-13 | `applyShift(applyShift(t, s), -s) == t` for every text and every integer `s` |
| Permutations.Iota | static/js/substitutionCipher.js:7 | `Array.from(Array(n).keys())` is `0, 1, ..., n-1` |
| Permutations.PermutationFacts | static/js/substitutionCipher.js:7-12 | a permutation of `0..n-1` has length `n`, entries in range, no repeats, and every value present |
| Permutations.IndexOf | static/js/substitutionCipher.js:18-20 | `indexOf` gives -1 exactly when the element is absent, and otherwise its first position |
| Permutations.IndexOfPermutation | static/js/substitutionCipher.js:20 | in a permutation, `indexOf` inverts indexing, both ways |
| Permutations.PickInRange | static/js/substitutionCipher.js:9 | `Math.floor(r * (i + 1))` lies in `0..i` for every `r` in `[0, 1)` |
| Permutations.FisherYates | static/js/substitutionCipher.js:7-11 | the shuffled key is a permutation of `0..n-1`, whatever the random draws |
| KeyText.HexValue | static/js/encode.js:35 | digit values for `parseInt`: decimal digits give 0..9, hex letters 10..15, anything else -1 |
| KeyText.DigitRun | static/js/encode.js:35 | `parseInt` reads the longest run of digits: every character of the run is a digit, and the next one is not |
| KeyText.NatToString | static/js/substitutionCipher.js:12 | `String(n)` is a non-empty run of decimal digits with no leading zero |
| KeyText.NatToStringValue | static/js/substitutionCipher.js:12 | the digits of `String(n)` have the value `n` |
| KeyText.ParseNat | static/js/encode.js:35 | `parseInt(String(n)) == n` |
| KeyText.ParseDigits | static/js/encode.js:35 | `parseInt` of a canonical decimal numeral is its value |
| KeyText.ParseInt | static/js/encode.js:31 | `parseInt` gives `NaN` exactly when, after the leading white space and an optional sign, no numeral begins: neither `0x`/`0X` followed by a hexadecimal digit nor a decimal digit. A negative result needs a leading `-` |
| KeyText.SplitOn | static/js/encode.js:35 | `split(',')` yields at least one piece, and no piece contains a comma |
| KeyText.SplitJoin | static/js/encode.js:35 | splitting the comma-join of comma-free pieces gives the pieces back |
| KeyText.NonBlank | static/js/encode.js:35 | `filter(x => x.trim() !== "")` keeps at most the pieces it was given, and none of the kept pieces is blank |
| KeyText.NonBlankOne | static/js/encode.js:35 | a single piece survives the filter exactly when it is not blank |
| KeyText.NonBlankAppend | static/js/encode.js:35 | the filter works piece by piece: filtering two runs of pieces gives the two filtered runs, in order |
| KeyText.NonBlankNone | static/js/encode.js:35 | the filter keeps nothing exactly when every piece is blank |
| KeyText.ParseKey | static/js/encode.js:35 | the key has at most one entry per comma piece. It is empty exactly when every piece is blank, and each entry is `parseInt` of a non-blank trimmed piece of the field |
| KeyText.JoinKey | static/js/substitutionCipher.js:12 | `key.join(',')`: the empty key gives the empty text, and splitting the text of any other key at its commas gives back the decimal numerals of its entries, in order |
| KeyText.ParseJoinKey | static/js/encode.js:35 | parsing the comma-joined text of a key of naturals gives exactly that key back |
| Page.ParseOr | static/js/encode.js:31 | `parseInt(field) \|\| d`: the default when the field does not parse or parses to 0, otherwise the parsed number |
| Page.KeyValues | static/js/encode.js:35 | parsed key entries keep their values; an entry that is `NaN` acts as -1 in the ciphers |
| Page.KeyFieldRoundTrip | static/js/encode.js:35-36 | a comma-joined key read back through the key field has the same length and the same entries |
| Ascii.ToLower | static/js/attack.js:23 | ASCII `toLowerCase` moves `A`-`Z` up by 32 and leaves every other character alone |
| Ascii.Lower | static/js/substitutionCipher.js:16 | lower-casing a text keeps its length and lower-cases each character |
| Ascii.LeadingSpaces | static/js/encode.js:24 | `trim` drops exactly the maximal run of leading white space |
| Ascii.TrailingSpaces | static/js/encode.js:24 | `trim` drops exactly the maximal run of trailing white space |
| Ascii.TrimEmptyIffAllSpace | static/js/encode.js:24 | `!text.trim()` holds exactly when the text is empty or all white space |
| Ascii.IsBlank | static/js/encode.js:24 | the handlers' blank test holds exactly when every character is white space |
| SubstitutionCipher.Alphabet | static/js/substitutionCipher.js:4 | `z29` has 29 symbols, and symbol `i` is the `i`-th of `a`-`z`, space, comma, period |
| SubstitutionCipher.Z29Literal | static/js/substitutionCipher.js:4 | the alphabet is the literal `"abcdefghijklmnopqrstuvwxyz ,."` |
| SubstitutionCipher.IndexOfZ29 | static/js/substitutionCipher.js:16-18 | `z29.indexOf(c)` is the arithmetic index of `c`, and `z29.includes(c)` holds exactly when that index is defined |
| SubstitutionCipher.Clean | static/js/substitutionCipher.js:16 | the filtered text is no longer than the input, and every kept character is in `z29` |
| SubstitutionCipher.CleanOne | static/js/substitutionCipher.js:16 | one character is kept, lower-cased, exactly when its lower-case form is in `z29`, and dropped otherwise |
| SubstitutionCipher.CleanAppend | static/js/substitutionCipher.js:16 | cleaning works character by character: cleaning two texts joined gives the two cleaned texts joined |
| SubstitutionCipher.CleanZ29 | static/js/substitutionCipher.js:16 | text already inside `z29` passes the filter unchanged |
| SubstitutionCipher.ApplySubstitution | static/js/substitutionCipher.js:15-27 | the output is never longer than the filtered text, whatever the key |
| SubstitutionCipher.SubstituteSymbol | static/js/substitutionCipher.js:17-25 | each symbol is replaced by at most one `z29` symbol. Forward, it is dropped exactly when `key[i]` is missing or outside `z29`; in reverse, exactly when `key.indexOf(i)` is -1 or outside `z29` |
| SubstitutionCipher.SymbolPermutation | static/js/substitutionCipher.js:18-24 | with a permutation key, each kept symbol becomes exactly one symbol: `z29[key[i]]` forward, `z29[key.indexOf(i)]` in reverse |
| SubstitutionCipher.SubstituteAllPermutation | static/js/substitutionCipher.js:17-26 | with a permutation key, the map over the kept symbols is one-for-one, position by position |
| SubstitutionCipher.SubstitutionPointwise | static/js/substitutionCipher.js:16-26 | with a permutation key, the output is as long as the filtered text, and its `k`-th character is the forward or reverse image of the `k`-th kept character |
| SubstitutionCipher.SubstitutionInAlphabet | static/js/substitutionCipher.js:23-24 | with a permutation key, every output character is a `z29` symbol |
| SubstitutionCipher.DecipherEncipher | static/js/substitutionCipher.js:19-24 | the reverse lookup undoes the forward lookup, and the forward lookup undoes the reverse one |
| SubstitutionCipher.SymbolsUndone | static/js/substitutionCipher.js:17-26 | on text inside `z29`, applying the substitution one way and then the other gives the text back |
| SubstitutionCipher.SubstitutionUndone | static/js/substitutionCipher.js:15-27 | either direction followed by the other yields the lower-cased, filtered text |
| SubstitutionCipher.SubstitutionRoundTrip | static/js/substitutionCipher.js:15-27 | reverse(forward(t)) and forward(reverse(t)) both equal `t` lower-cased and filtered |
| SubstitutionCipher.GenerateRandomSubKey | static/js/substitutionCipher.js:6-13 | the key text is the comma-join of a permutation of `0..28`, whatever the random draws |
| PermutationCipher.PaddingValue | static/js/permutationCipher.js:18 | the padding is 0 for a length that is a multiple of `m`, and `m - len % m` otherwise |
| PermutationCipher.PaddingFacts | static/js/permutationCipher.js:18-19 | the padding is less than `m`; it is zero exactly when `m` divides the length; it gives the smallest multiple of `m` at least the length |
| PermutationCipher.PaddedBlocks | static/js/permutationCipher.js:18-19 | the padded length is `m` times the rounded-up number of blocks |
| PermutationCipher.Spaces | static/js/permutationCipher.js:19 | `" ".repeat(n)` is `n` spaces |
| PermutationCipher.Blocks | static/js/permutationCipher.js:22-25 | the padded text is cut into blocks of exactly `m` characters |
| PermutationCipher.CollectBlocks | static/js/permutationCipher.js:22-25 | the blocking loop pushes exactly the blocks of the padded text, in order |
| PermutationCipher.PermuteBlock | static/js/permutationCipher.js:29-39 | a permuted block is as long as the key |
| PermutationCipher.FillBlock | static/js/permutationCipher.js:29-39 | the per-block loop gathers (`newBlock[i] = block[key[i]]`) or, in reverse, scatters (`newBlock[key[i]] = block[i]`) |
| PermutationCipher.PermuteEach | static/js/permutationCipher.js:28-40 | `blocks.map(...)` permutes every block and keeps the number of blocks |
| PermutationCipher.ApplyPermutation | static/js/permutationCipher.js:13-41 | the imperative cipher computes the specification `Permuted` for every key it accepts |
| PermutationCipher.Permuted | static/js/permutationCipher.js:17-40 | the padded, blocked and permuted text is exactly as long as the text padded to a multiple of `m` |
| PermutationCipher.BlockAtOffset | static/js/permutationCipher.js:23-40 | position `s + i` of the output comes from the block that starts at `s` |
| PermutationCipher.EncodeGathers | static/js/permutationCipher.js:35-36 | encoding: `out[b*m + i] == padded[b*m + key[i]]` |
| PermutationCipher.DecodeScatters | static/js/permutationCipher.js:32-33 | decoding: `out[b*m + key[i]] == padded[b*m + i]` |
| PermutationCipher.ScatterGather | static/js/permutationCipher.js:29-39 | for a permutation key, scattering undoes gathering and gathering undoes scattering |
| PermutationCipher.GatherMultiset | static/js/permutationCipher.js:36 | gathering a block by a permutation key keeps its multiset of characters |
| PermutationCipher.BlockMultiset | static/js/permutationCipher.js:23-39 | for a permutation key, each output block has the same multiset of characters as the padded input block |
| PermutationCipher.BlocksRoundTrip | static/js/permutationCipher.js:28-40 | on a text cut into whole blocks, one direction followed by the other gives the text back |
| PermutationCipher.PermutationRoundTrip | static/js/permutationCipher.js:13-41 | for a permutation key, reverse(forward(t)) and forward(reverse(t)) are `t` padded with spaces; decoding the encoded `t` gives `t` itself if and only if `m` divides its length (otherwise the result is longer) |
| PermutationCipher.GenerateRandomPermKey | static/js/permutationCipher.js:4-11 | the key text is the comma-join of a permutation of `0..m-1`, whatever the random draws |
| Attack.FirstLetterIndex | static/js/attack.js:19-20 | `match(/[a-z]/i)` finds the first ASCII letter, or none exactly when the text has no letter |
| Attack.LetterShift | static/js/attack.js:23-25 | `(c - p + 26) % 26` lies in 0..25 and moves the plaintext letter's offset onto the ciphertext letter's |
| Attack.AttackShift | static/js/attack.js:11-38 | both fields are required. No letters in either text means no key. Otherwise the key is in 0..25 and maps the first plaintext letter onto the first ciphertext letter, ignoring case. It is "verified" exactly when re-encoding the plaintext gives the ciphertext, else "possible" |
| Attack.AttackShiftRecovers | static/js/attack.js:18-32 | attacking a text that has a letter with its own shift by `s` verifies the key `s mod 26` |
| Attack.RecoveredKey | static/js/attack.js:47-57 | the recovered key has `m` entries in `0..m-1`; `pBlock[key[i]] == cBlock[i]`, and no earlier plaintext position holds `cBlock[i]` (the first index, as `indexOf` gives) |
| Attack.AttackPermutation | static/js/attack.js:11-74 | missing fields, a plaintext shorter than `m`, and an unmappable first block are each reported exactly when they occur. Otherwise the key is the first-index key. It is "verified" exactly when the trimmed re-encoding equals the trimmed ciphertext, else "partial" |
| Attack.PermutationRecovers | static/js/attack.js:47-63 | when the first plaintext block has distinct characters, attacking its own encoding recovers the key |
| Decode.SkipNonWord | static/js/decode.js:44 | skips exactly the leading run of non-word characters |
| Decode.SplitNonWord | static/js/decode.js:44 | `split(/\W+/)` yields at least one token, and every token consists of word characters |
| Decode.SplitKeepsWordChars | static/js/decode.js:44 | the tokens, concatenated, are exactly the word characters of the text, in order |
| Decode.MatchCount | static/js/decode.js:44 | the number of dictionary hits is at most the number of tokens; it is zero exactly when no token is a dictionary word, and equals the token count exactly when every token is one |
| Decode.MatchCountOne | static/js/decode.js:44 | one token scores 1 exactly when it is a dictionary word, and 0 otherwise |
| Decode.MatchCountAppend | static/js/decode.js:44 | the hits of two runs of tokens add up |
| Decode.DetectShift | static/js/decode.js:39-49 | the detected shift is in 0..25; no shift scores more; every smaller shift scores strictly less; no match at all gives shift 0 |
| Decode.Score | static/js/decode.js:43-44 | the score of shift `s` is at most the number of `\W+` tokens of the text shifted back by `s`, and is zero exactly when none of them is a dictionary word |
| Decode.BestShiftUnique | static/js/decode.js:45-48 | the "first maximum" rule determines one shift and one score |
| Decode.ScorePeriodic | static/js/decode.js:43 | the score of a shift depends only on the shift mod 26 |
| Decode.BestShiftCoversAll | static/js/decode.js:42-49 | the detected shift scores at least as much as every integer shift |
| Decode.ManualShift | static/js/decode.js:8-21 | the Shift button refuses exactly the texts whose `trim()` is empty |
| Decode.UnshiftBy | static/js/decode.js:14-19 | decoding with a known shift refuses exactly the blank texts |
| Decode.UnshiftUndoes | static/js/decode.js:19 | decoding with `-v` undoes an encoding with `v` |
| Decode.ManualShiftUndoes | static/js/decode.js:10-19 | the Shift button, given the field used to encode, gives back the plaintext |
| Decode.BruteForce | static/js/decode.js:37-53 | the shown shift is the detector's first maximum, and the output is the text decoded with it |
| Decode.SubstitutionDecoding | static/js/decode.js:55-64 | a key of other than 29 entries is refused; otherwise the output is the reverse substitution |
| Decode.PermutationDecoding | static/js/decode.js:65-78 | a key whose length differs from the parsed block size is refused; otherwise the output is the reverse permutation |
| Decode.HandleDecoding | static/js/decode.js:24-79 | blank text is refused. The shift branch brute-forces. The substitution and permutation branches apply their length gates and then decode |
| Decode.CountsAddUp | static/js/decode.js:100-109 | the letter counts add up to the number of `a`-`z` characters |
| Decode.Tally | static/js/decode.js:100-109 | the counts hold exactly the letters `a`-`z` of the text with their numbers of occurrences, and `totalAlpha` is the number of such letters |
| Decode.CountLetters | static/js/decode.js:82-109 | blank lower-cased text gives nothing. Otherwise the counts are per letter, and `totalAlpha` equals their sum |
| Encode.HandleRandomKey | static/js/encode.js:5-13 | substitution fills in a permutation of `0..28`. Permutation fills in a permutation of `0..m-1`, with `m` defaulting to 5; an `m` below 0 or above 2^32 - 1, which `Array(m)` rejects, is an error and leaves the key field unchanged |
| Encode.HandleEncoding | static/js/encode.js:15-53 | blank text is refused. Shift uses the parsed shift or 0. Substitution requires 29 key entries and permutation a key as long as the block size; each then encodes |
| Encode.GeneratedSubKeyWorks | static/js/encode.js:34-41 | a generated substitution key passes the 29-entry gate, parses back to itself, and decodes what it encodes |
| Encode.GeneratedPermKeyWorks | static/js/encode.js:42-52 | a generated permutation key passes the block-size gate, parses back to itself, and decodes what it encodes, up to padding |
| Gematria.Isqrt | static/js/gematria.js:9 | `Math.floor(Math.sqrt(n))` as the exact integer square root: `k*k <= n < (k+1)*(k+1)` |
| Gematria.IsqrtUnique | static/js/gematria.js:9 | that root is the only such `k` |
| Gematria.Shell | static/js/gematria.js:4-19 | `n <= 1` maps to (0, 0); otherwise the point lies in the square of side `k = isqrt(n-1)`, on its outer shell |
| Gematria.ShellOffset | static/js/gematria.js:9-18 | the offset `n - k*k` lies in `1..2k+1`. The first arm gives `(k, offset-1)`; past the corner, `(2k+1-offset, k)` |
| Gematria.ShellIndex | static/js/gematria.js:4-19 | an independent inverse: every point of the quadrant has a position `n >= 1` |
| Gematria.ShellInverse | static/js/gematria.js:4-19 | the inverse recovers `n` from `shell(n)` for every `n >= 1` |
| Gematria.ShellIndexInverse | static/js/gematria.js:4-19 | every point of the quadrant is `shell(n)` of its position |
| Gematria.ShellInjective | static/js/gematria.js:4-19 | distinct `n >= 1` map to distinct points |
| Gematria.ChartRange | static/js/gematria.js:142-147 | every chart letter is a Greek, Hebrew, Arabic or Devanagari code point |
| Gematria.Chart | static/js/gematria.js:142-147 | the Indian chart values are digits 0-9, and those of the other charts lie in 1..1000 |
| Gematria.ChartsSeparatorFree | static/js/gematria.js:142-147 | no chart gives a value to a punctuation marker or white space |
| Gematria.Zero | static/js/gematria.js:186 | the initial total is `""` in the Indian system and 0 otherwise |
| Gematria.Plus | static/js/gematria.js:195-196 | `+=` keeps a total of its kind: digits appended to digits, numbers added to numbers |
| Gematria.PlusZero | static/js/gematria.js:195-196 | the initial total is neutral for `+=` |
| Gematria.PlusAssoc | static/js/gematria.js:195-196 | `+=` is associative, so totals may be grouped by word, by segment or over the text |
| Gematria.Piece | static/js/gematria.js:194-196 | a charted character adds its value in the adding systems and the decimal text of its value in the Indian one |
| Gematria.CharTotal | static/js/gematria.js:190-198 | a word's total is of its system's kind |
| Gematria.CharTotalAppend | static/js/gematria.js:190-198 | the total of a concatenation is the sum of the totals |
| Gematria.UnchartedZero | static/js/gematria.js:191 | uncharted characters add nothing |
| Gematria.CharStep | static/js/gematria.js:190-197 | one character step adds its piece, counts it as a letter, and sets `validCharInWord`, exactly when it is charted |
| Gematria.WordValue | static/js/gematria.js:186-198 | the character loop computes the word's total, whether it has a charted character, and how many it has |
| Gematria.Totals | static/js/gematria.js:222 | one total per word, each of the system's kind |
| Gematria.Sum | static/js/gematria.js:227-228 | a sum of totals of one kind is of that kind |
| Gematria.SumAppend | static/js/gematria.js:227-228 | summing a concatenation is adding the two sums |
| Gematria.SplitWhere | static/js/gematria.js:180 | `split` yields at least one piece, and no piece holds a separator |
| Gematria.SplitWhereJoin | static/js/gematria.js:180 | `split` loses nothing: there is one piece more than separators, and putting the separators back between the pieces gives the text again |
| Gematria.NonEmpty | static/js/gematria.js:180 | `filter(w => w.length > 0)` keeps only non-empty words |
| Gematria.NonEmptyOne | static/js/gematria.js:180 | one word survives the filter exactly when it is not empty |
| Gematria.NonEmptyAppend | static/js/gematria.js:180 | the filter works word by word: filtering two runs of words gives the two filtered runs, in order |
| Gematria.Words | static/js/gematria.js:180 | the words of a segment are non-empty and hold no white space |
| Gematria.Segments | static/js/gematria.js:165-178 | the segments that reach the summation are not blank and hold no punctuation marker |
| Gematria.ValidWords | static/js/gematria.js:200 | only words with a charted character reach the summation |
| Gematria.SegmentEntry | static/js/gematria.js:233-236 | a segment contributes at most one line to the punctuation summation |
| Gematria.SplitTotal | static/js/gematria.js:180 | splitting at uncharted separators does not change the total |
| Gematria.TrimTotal | static/js/gematria.js:180 | trimming does not change the total |
| Gematria.WordsTotal | static/js/gematria.js:180-229 | the valid words of a segment add up to the segment's character total |
| Gematria.NonBlankTotal | static/js/gematria.js:165 | dropping blank segments does not change the total |
| Gematria.AllValidTotal | static/js/gematria.js:177-237 | the valid words of all segments add up to the segments' total |
| Gematria.GlobalIsTextTotal | static/js/gematria.js:165-237 | the global total is the total of the text's charted characters, for every chart |
| Gematria.SegmentSumsTotal | static/js/gematria.js:177-237 | the punctuation sums add up to the global total |
| Gematria.LettersAreTextLetters | static/js/gematria.js:190-193 | `activeLetterCount` is the number of charted characters in the text |
| Gematria.AddWord | static/js/gematria.js:184-231 | one word step extends the segment's totals, the segment sum, the global total and the letter count by that word, when it is valid |
| Gematria.ProcessWords | static/js/gematria.js:184-231 | the word loop lists the valid words' totals. The segment sum is their sum, the global total grows by it, and the letter count by their charted letters |
| Gematria.AddSegment | static/js/gematria.js:177-237 | one segment step keeps the loop's specification for one more segment |
| Gematria.SumSegments | static/js/gematria.js:177-237 | the segment loop computes the word totals, the global total, the punctuation sums and the letter count of the specification |
| Gematria.FreqSumBump | static/js/gematria.js:264 | bumping one listed count adds one to the sum of the counts |
| Gematria.CountChar | static/js/gematria.js:258-266 | one character step keeps the first-seen table and its sum for one more character |
| Gematria.FrequencyTable | static/js/gematria.js:256-266 | the map holds exactly the charted characters, each with its number of occurrences. The order lists each of them once, by first occurrence. The counts add up to the charted characters of the text |
| Gematria.ValueTotal | static/js/gematria.js:195-196 | a chart value is the number itself in the adding systems and its decimal text in the Indian one |
| Gematria.Repeat | static/js/gematria.js:271 | `s.repeat(n)` is `n` times as long as `s` and holds only characters of `s` |
| Gematria.Product | static/js/gematria.js:271 | a `charData` product is of its system's kind: a number, or a digit string |
| Gematria.ProductIsRepeatedValue | static/js/gematria.js:271 | in either kind of system, the product is the value added `freq` times with `+=` from the initial total: `v * f` is `v + ... + v`, and `repeat` is `v.toString()` concatenated `f` times |
| Gematria.Products | static/js/gematria.js:268-272 | `occurrenceOrder.map`: one product per character, in order of first occurrence, for its chart value and its count |
| Gematria.RunningCumulative | static/js/gematria.js:284-288 | entry `i` of the cumulative column is the sum of the values of segment sums `0..i` |
| Gematria.NumSumIsSum | static/js/gematria.js:286 | in the adding systems, `Number(item.sum)` added up is the sum of the totals |
| Gematria.CumulativeEndsAtGlobal | static/js/gematria.js:284-288 | in the adding systems, the last cumulative entry equals the global total |
| Gematria.PerformCalculation | static/js/gematria.js:148-297 | blank text is refused. Otherwise the report's word totals, global total, punctuation sums, cumulative column, letter count, word count and frequency table all meet their specifications, and the `charData` products are those of each listed character's chart value and count |
| Gematria.ReportAgreesWithText | static/js/gematria.js:148-297 | the global total and the letter count depend only on the text's charted characters; in the adding systems the cumulative column ends at that total |

## Left out

- DOM wiring is not modelled: field reads, `innerText`/`innerHTML`, status colours, toggles, event listeners, chart bars and the highlighted output markup (`encode.js:55-71`). Each handler takes its fields as strings and returns a `Response`.
- `static/js/main.js` and `app.py` are not part of this model. The first is another copy of the encode and decode handlers plus UI glue; the second only serves templates.
- `Math.random` is a supplied sequence of draws in `[0, 1)`. Only the permutation property of the shuffles is proved, not their uniformity.
- Floating point is left out:
  - the hexagon mapper and the hex metadata (`Math.sqrt`, `Math.ceil`, `BigInt`);
  - the frequency percentages.
- Gematria.Isqrt: models `Math.floor(Math.sqrt(n - 1))` as the exact integer square root, without floating-point rounding for very large `n`.
- The `CoordCache` memo and all canvas drawing are left out.
- Output formatting is left out: `padEnd`/`padStart`, equation strings, line wrapping, the step-by-step breakdown and the sorted copies of the frequency table. They only rearrange values the model computes.
- Unicode library behaviour is left out:
  - NFD normalisation and diacritic stripping are not modelled; the text is taken as already normalised;
  - `toLowerCase` is ASCII-only, so non-ASCII letters are unchanged;
  - `trim` and `\s` use a fixed set of ten white-space characters;
  - text is a sequence of `char`, not UTF-16 code units.
- Number precision is left out: totals are unbounded naturals. `Number(item.sum)` on an Indian digit string is the value of its digits, without the loss of precision beyond 2^53.
- KeyText.ParseInt: a numeral is read as its exact unbounded value. The model has no rounding to a double past 2^53, and no `Infinity` for a numeral above about 1.8 × 10^308. In JavaScript, `parseInt("9007199254740993")` is 9007199254740992, and an `Infinity` shift makes `s % 26` `NaN`, so every letter becomes `"\u0000"`.
- Page.ParseOr and Page.KeyValues: inherit the exact reading of `KeyText.ParseInt`. So the shift field, the block size and every key entry are exact integers, and so is what `ApplyShift` and the handlers compute from them.
- PermutationCipher.ApplyPermutation: requires a non-empty key whose entries lie in the block (encoding) or form a permutation (decoding). With other keys the page loops forever (empty key) or leaves holes that `join` drops; that behaviour is not modelled.
- Encode.HandleEncoding and Decode.HandleDecoding: take as a precondition that permutation keys are ones that `applyPermutation` accepts. The substitution branch is modelled for every key, including wrong entries and `NaN`.
- Attack.AttackPermutation: requires `m >= 1`. For `m <= 0` or `NaN` the page calls `applyPermutation` with an empty key, which never terminates.
- Attack.AttackPermutation: a position past the end of a short ciphertext counts as "not found". In JavaScript, `pBlock.indexOf(undefined)` searches for the text `"undefined"`.
- There is no substitution attack, because the code has none.
- KeyText.JoinKey: serialises keys of naturals only, which is what the generators produce.
- SubstitutionCipher.ApplySubstitution: for keys that are not permutations its contract only bounds the length. The per-symbol rule for such keys is the definition `SubstituteSymbol`, which follows `z29[key[i]]` and `z29[key.indexOf(i)]`, with undefined symbols dropped.
- Decode.ManualShift: tests blankness with `AllSpace`; it equals `!text.trim()` by Ascii.TrimEmptyIffAllSpace.
- Gematria.PerformCalculation: `split(/\s+/)` and `split(/([,;.:])/)` are modelled as splits at single separators followed by dropping empty or blank pieces. This gives the same pieces as the regex splits do.
