/** The encoding page, `static/js/encode.js`: the random-key button and the
    encode handler, which parses the key fields, checks their lengths and
    runs the chosen cipher. The status colours and the highlighted output
    markup are not modelled. */
module Encode {
  import opened Wrappers
  import opened Ascii
  import opened KeyText
  import opened Permutations
  import opened ShiftCipher
  import opened SubstitutionCipher
  import opened PermutationCipher
  import opened Page

  /** `handleRandomKey`: a fresh key for the selected cipher, with the block
      size read as `parseInt(field) || 5`. `draws` are the values
      `Math.random` returns, in order. */
  method HandleRandomKey(kind: CipherType, blockField: string, draws: seq<real>) returns (r: Response)
    requires forall k :: 0 <= k < |draws| ==> 0.0 <= draws[k] < 1.0
    requires kind == Substitution ==> |draws| >= 28
    requires kind == Permutation && 0 <= ParseOr(blockField, 5) <= MaxArrayLength
             ==> |draws| + 1 >= ParseOr(blockField, 5)
    ensures kind == Shift ==> r == Failed(NoRandomKey)
    ensures kind == Substitution ==>
      r.Output? && exists key: seq<nat> :: IsPermutation(key, 29) && r.text == JoinKey(key)
    ensures kind == Permutation && (ParseOr(blockField, 5) < 0 || ParseOr(blockField, 5) > MaxArrayLength)
            ==> r == Failed(InvalidArrayLength)
    ensures kind == Permutation && 0 <= ParseOr(blockField, 5) <= MaxArrayLength ==>
      r.Output? && exists key: seq<nat> :: IsPermutation(key, ParseOr(blockField, 5)) && r.text == JoinKey(key)
  {
    match kind {
      case Shift =>
        r := Failed(NoRandomKey);
      case Substitution =>
        Z29Indexed();
        var keyText := GenerateRandomSubKey(draws);
        r := Output(keyText);
      case Permutation =>
        var m := ParseOr(blockField, 5);
        if m < 0 || m > MaxArrayLength {
          return Failed(InvalidArrayLength);
        }
        var keyText := GenerateRandomPermKey(m, draws);
        r := Output(keyText);
    }
  }

  /** `handleEncoding`, with the page's fields passed in. A permutation key
      that passes the length gate must point inside its block. */
  method HandleEncoding(text: string, kind: CipherType, shiftField: string,
                        subKeyField: string, blockField: string, permKeyField: string)
    returns (r: Response)
    requires kind == Permutation && !AllSpace(text)
             && ParseInt(blockField) == Some(|ParseKey(permKeyField)|)
             ==> ValidFor(KeyValues(ParseKey(permKeyField)), false)
    ensures AllSpace(text) ==> r == Failed(EmptyText)
    ensures !AllSpace(text) && kind == Shift ==> r == Output(ApplyShift(text, ParseOr(shiftField, 0)))
    ensures !AllSpace(text) && kind == Substitution ==>
      r == if |ParseKey(subKeyField)| != 29 then Failed(SubKeyLength)
           else Output(ApplySubstitution(text, KeyValues(ParseKey(subKeyField)), false))
    ensures !AllSpace(text) && kind == Permutation ==>
      r == if ParseInt(blockField) != Some(|ParseKey(permKeyField)|) then Failed(BlockSizeMismatch)
           else Output(Permuted(text, KeyValues(ParseKey(permKeyField)), false))
  {
    var blank := IsBlank(text);
    if blank {
      return Failed(EmptyText);
    }
    var result: string := [];
    match kind {
      case Shift =>
        var s := ParseOr(shiftField, 0);
        result := ApplyShift(text, s);
      case Substitution =>
        var keyArr := ParseKey(subKeyField);
        if |keyArr| != 29 {
          return Failed(SubKeyLength);
        }
        result := ApplySubstitution(text, KeyValues(keyArr), false);
      case Permutation =>
        var m := ParseInt(blockField);
        var keyArr := ParseKey(permKeyField);
        if m != Some(|keyArr|) {
          return Failed(BlockSizeMismatch);
        }
        result := ApplyPermutation(text, KeyValues(keyArr), false);
    }
    r := Output(result);
  }

  /** A generated substitution key, pasted into the key field, passes the
      29-entry gate and reads back as the key; decoding with it then undoes
      encoding with it. */
  lemma GeneratedSubKeyWorks(key: seq<nat>, text: string)
    requires IsPermutation(key, 29)
    ensures |ParseKey(JoinKey(key))| == 29
    ensures KeyValues(ParseKey(JoinKey(key))) == key
    ensures ApplySubstitution(ApplySubstitution(text, key, false), key, true) == Clean(text)
  {
    PermutationFacts(key, 29);
    KeyFieldRoundTrip(key);
    SubstitutionRoundTrip(text, key);
  }

  /** A generated permutation key of size `m >= 1`, pasted into the key
      field with `m` in the block-size field, passes the length gate and
      reads back as the key; decoding with it then undoes encoding with it,
      up to the padding. */
  lemma GeneratedPermKeyWorks(key: seq<nat>, m: nat, text: string)
    requires m >= 1 && IsPermutation(key, m)
    ensures ParseInt(NatToString(m)) == Some(|ParseKey(JoinKey(key))|)
    ensures KeyValues(ParseKey(JoinKey(key))) == key
    ensures ValidFor(key, false) && ValidFor(key, true)
    ensures Permuted(Permuted(text, key, false), key, true) == Padded(text, m)
  {
    PermutationFacts(key, m);
    KeyFieldRoundTrip(key);
    ParseNat(m);
    PermutationRoundTrip(text, key);
  }
}
