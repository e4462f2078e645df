/** What the encode and decode handlers share: the cipher selector, the
    result they show (an output text or an error status), and the
    `parseInt(field) || d` idiom with which they read numeric fields. */
module Page {
  import opened Wrappers
  import opened KeyText

  /** The options of the `cipherSelect` drop-down. */
  datatype CipherType = Shift | Substitution | Permutation

  /** The error statuses a handler can set instead of an output. */
  datatype Failure =
    | EmptyText           // "Plaintext entry is empty." / "Ciphertext entry is empty."
    | SubKeyLength        // "Substitution key must have 29 values."
    | BlockSizeMismatch   // "Key length must match block size (m)."
    | NoRandomKey         // the random-key button does nothing for the shift cipher
    | InvalidArrayLength  // `Array(m)` with `m` outside `0..MaxArrayLength` throws a RangeError

  /** The largest length `Array(m)` accepts: 2^32 - 1. Any other `m` is not
      its own unsigned 32-bit conversion, and the constructor throws. */
  const MaxArrayLength: int := 0xFFFF_FFFF

  datatype Response = Output(text: string) | Failed(failure: Failure)

  /** `parseInt(field) || d`: both `NaN` and a parsed `0` are falsy, so
      either one gives the default. */
  function ParseOr(field: string, d: int): (r: int)
    ensures ParseInt(field) == None ==> r == d
    ensures ParseInt(field) == Some(0) ==> r == d
    ensures ParseInt(field).Some? && ParseInt(field).value != 0 ==> r == ParseInt(field).value
    ensures d != 0 ==> r != 0
  {
    match ParseInt(field)
    case None => d
    case Some(v) => if v == 0 then d else v
  }

  /** The parsed key as the ciphers see it. A `NaN` entry never equals an
      index and reads no alphabet symbol, which is exactly how -1 behaves in
      both ciphers, so it is written as -1. */
  function KeyValues(keys: seq<Option<int>>): (r: seq<int>)
    ensures |r| == |keys|
    ensures forall i :: 0 <= i < |keys| ==> r[i] == if keys[i].Some? then keys[i].value else -1
  {
    seq(|keys|, i requires 0 <= i < |keys| => if keys[i].Some? then keys[i].value else -1)
  }

  /** Reading back the text of a generated key gives the key itself: the
      comma-joined numbers parse to the same entries in the same order. */
  lemma KeyFieldRoundTrip(key: seq<nat>)
    ensures |ParseKey(JoinKey(key))| == |key|
    ensures KeyValues(ParseKey(JoinKey(key))) == key
  {
    ParseJoinKey(key);
  }
}
