/** The shift (Caesar) cipher of `static/js/shiftCipher_eng.js`: every ASCII
    letter is rotated through its own case's alphabet, every other character
    is copied. */
module ShiftCipher {
  import opened Ascii

  /** `Math.trunc(a / 26)`: the quotient rounded toward zero. */
  function JsQuot26(a: int): int {
    if a >= 0 then a / 26 else -((-a) / 26)
  }

  /** JavaScript's `a % 26`, `a - 26 * trunc(a / 26)`: a remainder that
      takes the sign of the dividend, unlike Dafny's Euclidean `%`. */
  function JsRem26(a: int): (r: int)
    ensures -26 < r < 26
    ensures a >= 0 ==> r >= 0
    ensures a < 0 ==> r <= 0
  {
    a - 26 * JsQuot26(a)
  }

  /** Position of a letter in its alphabet: 0 for `a` and `A`, 25 for `z` and `Z`. */
  function Offset(c: char): (o: int)
    requires IsLetter(c)
    ensures 0 <= o < 26
  {
    if IsUpper(c) then c as int - 'A' as int else c as int - 'a' as int
  }

  /** The per-character rotation inside `applyShift`'s `map`, with the
      `+ 26` that keeps JavaScript's remainder non-negative. */
  function ShiftChar(c: char, s: int): char {
    if IsLetter(c) then
      var code := c as int;
      var start := if 65 <= code <= 90 then 65 else 97;
      ((code - start + JsRem26(s) + 26) % 26 + start) as char
    else c
  }

  /** `applyShift(text, s)`. */
  function ApplyShift(text: string, s: int): (r: string)
    ensures |r| == |text|
    ensures forall i :: 0 <= i < |text| && !IsLetter(text[i]) ==> r[i] == text[i]
    ensures forall i :: 0 <= i < |text| ==> (IsUpper(r[i]) <==> IsUpper(text[i]))
    ensures forall i :: 0 <= i < |text| ==> (IsLower(r[i]) <==> IsLower(text[i]))
    ensures forall i :: 0 <= i < |text| && IsLetter(text[i]) ==>
      Offset(r[i]) == (Offset(text[i]) + s) % 26
  {
    var r := seq(|text|, i requires 0 <= i < |text| => ShiftChar(text[i], s));
    forall i | 0 <= i < |text| && IsLetter(text[i])
      ensures IsUpper(r[i]) == IsUpper(text[i]) && IsLower(r[i]) == IsLower(text[i])
      ensures Offset(r[i]) == (Offset(text[i]) + s) % 26
    {
      ShiftCharLetter(text[i], s);
    }
    r
  }

  lemma ShiftCharLetter(c: char, s: int)
    requires IsLetter(c)
    ensures IsUpper(ShiftChar(c, s)) == IsUpper(c)
    ensures IsLower(ShiftChar(c, s)) == IsLower(c)
    ensures Offset(ShiftChar(c, s)) == (Offset(c) + s) % 26
  {
    var k := JsQuot26(s);
    var o := Offset(c);
    var v := (o + JsRem26(s) + 26) % 26;
    assert v == (o + s) % 26 by {
      assert o + JsRem26(s) + 26 == (o + s) + 26 * (1 - k);
      ModMultiple(o + s, 1 - k);
    }
    var start := if IsUpper(c) then 65 else 97;
    assert c as int - start == o;
    assert ShiftChar(c, s) as int == v + start;
  }

  /** Reducing one summand first does not change the remainder. */
  lemma ModAddMod(x: int, y: int)
    ensures (x % 26 + y) % 26 == (x + y) % 26
  {
    var q := x / 26;
    assert x + y == (x % 26 + y) + 26 * q;
    ModMultiple(x % 26 + y, q);
  }

  /** Adding a multiple of 26 does not change a Euclidean remainder. */
  lemma ModShift(a: int, d: int)
    requires d % 26 == 0
    ensures (a + d) % 26 == a % 26
  {
    var k := d / 26;
    assert d == 26 * k;
    ModMultiple(a, k);
  }

  lemma {:induction false} ModMultiple(a: int, k: int)
    ensures (a + 26 * k) % 26 == a % 26
  {
    var q := a / 26;
    var r := a % 26;
    assert a + 26 * k == 26 * (q + k) + r;
    ModUnique(a + 26 * k, q + k, r);
  }

  /** The Euclidean remainder is the `r` of any decomposition `26 * q + r` with `0 <= r < 26`. */
  lemma ModUnique(a: int, q: int, r: int)
    requires a == 26 * q + r && 0 <= r < 26
    ensures a % 26 == r
  {
  }

  /** Two letters of the same case and offset are the same letter. */
  lemma SameLetter(c: char, d: char)
    requires IsLetter(c) && IsLetter(d)
    requires IsUpper(c) == IsUpper(d) && Offset(c) == Offset(d)
    ensures c == d
  {
  }

  lemma ShiftCharCompose(c: char, a: int, b: int)
    ensures ShiftChar(ShiftChar(c, a), b) == ShiftChar(c, a + b)
  {
    if IsLetter(c) {
      var o := Offset(c);
      var d := ShiftChar(c, a);
      ShiftCharLetter(c, a);
      ShiftCharLetter(d, b);
      ShiftCharLetter(c, a + b);
      ModAddMod(o + a, b);
      assert o + a + b == o + (a + b);
      SameLetter(ShiftChar(d, b), ShiftChar(c, a + b));
    }
  }

  lemma ShiftCharPeriodic(c: char, s: int)
    ensures ShiftChar(c, s) == ShiftChar(c, s % 26)
  {
    if IsLetter(c) {
      var o := Offset(c);
      ShiftCharLetter(c, s);
      ShiftCharLetter(c, s % 26);
      ModAddMod(s, o);
      assert s % 26 + o == o + s % 26 && s + o == o + s;
      SameLetter(ShiftChar(c, s), ShiftChar(c, s % 26));
    }
  }

  lemma ShiftCharIdentity(c: char, s: int)
    requires s % 26 == 0
    ensures ShiftChar(c, s) == c
  {
    if IsLetter(c) {
      ShiftCharLetter(c, s);
      ModShift(Offset(c), s);
      ModUnique(Offset(c), 0, Offset(c));
      SameLetter(ShiftChar(c, s), c);
    }
  }

  /** Shifting twice is shifting once by the sum. */
  lemma ShiftCompose(t: string, a: int, b: int)
    ensures ApplyShift(ApplyShift(t, a), b) == ApplyShift(t, a + b)
  {
    forall i | 0 <= i < |t| ensures ApplyShift(ApplyShift(t, a), b)[i] == ApplyShift(t, a + b)[i] {
      ShiftCharCompose(t[i], a, b);
    }
  }

  /** The output depends on `s` only through `s mod 26`. */
  lemma ShiftPeriodic(t: string, s: int)
    ensures ApplyShift(t, s) == ApplyShift(t, s % 26)
  {
    forall i | 0 <= i < |t| ensures ApplyShift(t, s)[i] == ApplyShift(t, s % 26)[i] {
      ShiftCharPeriodic(t[i], s);
    }
  }

  /** A shift by a multiple of 26 (0 in particular) changes nothing. */
  lemma ShiftIdentity(t: string, s: int)
    requires s % 26 == 0
    ensures ApplyShift(t, s) == t
  {
    forall i | 0 <= i < |t| ensures ApplyShift(t, s)[i] == t[i] {
      ShiftCharIdentity(t[i], s);
    }
  }

  /** Decoding with `-s` undoes encoding with `s`, for every integer `s`. */
  lemma ShiftRoundTrip(t: string, s: int)
    ensures ApplyShift(ApplyShift(t, s), -s) == t
  {
    ShiftCompose(t, s, -s);
    ShiftIdentity(t, 0);
  }
}
