/** Keys as text: the comma-joined form the key generators return and the
    key fields hold, and the `split(',')` / `trim` / `parseInt` pipeline that
    reads them back. */
module KeyText {
  import opened Wrappers
  import opened Ascii

  predicate IsDigit(c: char) { '0' <= c <= '9' }

  /** The value of a digit in base 16 (decimal digits and `a`-`f`, `A`-`F`); -1 otherwise. */
  function HexValue(c: char): (v: int)
    ensures -1 <= v < 16
    ensures IsDigit(c) <==> 0 <= v < 10
  {
    if IsDigit(c) then c as int - '0' as int
    else if 'a' <= c <= 'f' then c as int - 'a' as int + 10
    else if 'A' <= c <= 'F' then c as int - 'A' as int + 10
    else -1
  }

  /** The value of `c` as a digit in `radix` (10 or 16), or -1 when it is not one. */
  function DigitIn(c: char, radix: nat): (v: int)
    requires radix == 10 || radix == 16
    ensures -1 <= v < radix
  {
    var h := HexValue(c);
    if h < radix then h else -1
  }

  /** Length of the longest prefix of `s` made of digits in `radix`. */
  function DigitRun(s: string, radix: nat): (n: nat)
    requires radix == 10 || radix == 16
    ensures n <= |s|
    ensures forall i :: 0 <= i < n ==> DigitIn(s[i], radix) >= 0
    ensures n < |s| ==> DigitIn(s[n], radix) < 0
  {
    if s == [] || DigitIn(s[0], radix) < 0 then 0 else 1 + DigitRun(s[1..], radix)
  }

  /** Positional value of a string of digits. */
  function ValueIn(s: string, radix: nat): nat
    requires radix == 10 || radix == 16
    requires forall i :: 0 <= i < |s| ==> DigitIn(s[i], radix) >= 0
  {
    if s == [] then 0
    else ValueIn(s[..|s| - 1], radix) * radix + DigitIn(s[|s| - 1], radix)
  }

  /** The number after an optional sign: a `0x`/`0X` prefix selects base
      16, and the longest run of digits that follows is read; `None` when
      there is none. */
  function ParseMagnitude(u: string): Option<nat> {
    var hex := |u| >= 2 && u[0] == '0' && (u[1] == 'x' || u[1] == 'X');
    var radix := if hex then 16 else 10;
    var d := if hex then u[2..] else u;
    var n := DigitRun(d, radix);
    if n == 0 then None else Some(ValueIn(d[..n], radix))
  }

  /** The text after an optional leading sign. */
  function Unsigned(t: string): (u: string)
    ensures |u| <= |t|
  {
    if t != [] && (t[0] == '-' || t[0] == '+') then t[1..] else t
  }

  /** Whether `u` starts a numeral `parseInt` can read: `0x` or `0X` followed
      by a hexadecimal digit, or else a decimal digit. */
  predicate BeginsNumeral(u: string) {
    if |u| >= 2 && u[0] == '0' && (u[1] == 'x' || u[1] == 'X') then |u| > 2 && HexValue(u[2]) >= 0
    else u != [] && IsDigit(u[0])
  }

  /** `parseInt(s)` with no radix argument: leading white space is skipped,
      then an optional sign, then the magnitude; `None` stands for `NaN`. */
  function ParseInt(s: string): (r: Option<int>)
    ensures r.None? <==> !BeginsNumeral(Unsigned(TrimStart(s)))
    ensures r.Some? && r.value < 0 ==> TrimStart(s)[0] == '-'
    ensures r.Some? && TrimStart(s)[0] != '-' ==> r.value >= 0
  {
    var t := TrimStart(s);
    if t != [] && (t[0] == '-' || t[0] == '+') then
      match ParseMagnitude(t[1..])
      case None => None
      case Some(v) => Some(if t[0] == '-' then -(v as int) else v as int)
    else
      match ParseMagnitude(t)
      case None => None
      case Some(v) => Some(v)
  }

  function DigitChar(d: nat): (c: char)
    requires d < 10
    ensures IsDigit(c) && HexValue(c) == d
  {
    (d + '0' as int) as char
  }

  /** Decimal text of a natural number, as `String(n)` and `join` write it. */
  function NatToString(n: nat): (s: string)
    ensures s != []
    ensures forall i :: 0 <= i < |s| ==> IsDigit(s[i])
    ensures |s| >= 2 ==> s[0] != '0'
  {
    if n < 10 then [DigitChar(n)] else NatToString(n / 10) + [DigitChar(n % 10)]
  }

  lemma {:induction false} NatToStringValue(n: nat)
    ensures ValueIn(NatToString(n), 10) == n
  {
    var s := NatToString(n);
    if n >= 10 {
      NatToStringValue(n / 10);
      assert s[..|s| - 1] == NatToString(n / 10);
    }
  }

  /** `String.prototype.split` with a one-character separator: the pieces
      between separators, including empty ones; never an empty list. */
  function SplitOn(s: string, sep: char): (r: seq<string>)
    ensures |r| >= 1
    ensures forall i :: 0 <= i < |r| ==> sep !in r[i]
  {
    if s == [] then [[]]
    else
      var rest := SplitOn(s[1..], sep);
      if s[0] == sep then [[]] + rest else [[s[0]] + rest[0]] + rest[1..]
  }

  /** `Array.prototype.join`: the pieces with the separator between them. */
  function JoinWith(parts: seq<string>, sep: char): string {
    if parts == [] then []
    else if |parts| == 1 then parts[0]
    else parts[0] + [sep] + JoinWith(parts[1..], sep)
  }

  lemma {:induction false} SplitJoin(parts: seq<string>, sep: char)
    requires |parts| >= 1
    requires forall i :: 0 <= i < |parts| ==> sep !in parts[i]
    ensures SplitOn(JoinWith(parts, sep), sep) == parts
  {
    if |parts| == 1 {
      SplitNoSep(parts[0], sep);
    } else {
      SplitJoin(parts[1..], sep);
      var rest := JoinWith(parts[1..], sep);
      var b := [sep] + rest;
      SplitPrefix(parts[0], b, sep);
      assert parts[0] + [sep] + rest == parts[0] + b;
      assert b[0] == sep && b[1..] == rest;
      assert SplitOn(b, sep) == [[]] + parts[1..];
      assert parts[0] + [] == parts[0];
      assert [parts[0]] + parts[1..] == parts;
    }
  }

  lemma {:induction false} SplitNoSep(s: string, sep: char)
    requires sep !in s
    ensures SplitOn(s, sep) == [s]
  {
    if s != [] {
      SplitNoSep(s[1..], sep);
      assert [s[0]] + s[1..] == s;
    }
  }

  /** Text without a separator glues onto the first piece of what follows it. */
  lemma {:induction false} SplitPrefix(a: string, b: string, sep: char)
    requires sep !in a
    ensures SplitOn(a + b, sep) == [a + SplitOn(b, sep)[0]] + SplitOn(b, sep)[1..]
  {
    if a != [] {
      SplitPrefix(a[1..], b, sep);
      assert (a + b)[1..] == a[1..] + b;
      assert [a[0]] + (a[1..] + SplitOn(b, sep)[0]) == a + SplitOn(b, sep)[0];
    } else {
      var r := SplitOn(b, sep);
      assert a + b == b && a + r[0] == r[0];
      assert [r[0]] + r[1..] == r;
    }
  }

  /** The pieces that are not blank, in order (`filter(x => x.trim() !== "")`). */
  function NonBlank(pieces: seq<string>): (r: seq<string>)
    ensures |r| <= |pieces|
    ensures forall i :: 0 <= i < |r| ==> Trim(r[i]) != [] && r[i] in pieces
  {
    if pieces == [] then []
    else if Trim(pieces[0]) == [] then NonBlank(pieces[1..])
    else [pieces[0]] + NonBlank(pieces[1..])
  }

  /** Nothing survives exactly when every piece is blank. */
  lemma {:induction false} NonBlankNone(pieces: seq<string>)
    ensures NonBlank(pieces) == [] <==> forall i :: 0 <= i < |pieces| ==> Trim(pieces[i]) == []
  {
    if pieces != [] {
      NonBlankNone(pieces[1..]);
      assert forall i :: 1 <= i < |pieces| ==> pieces[i] == pieces[1..][i - 1];
    }
  }

  /** One piece survives exactly when it is not blank. */
  lemma NonBlankOne(p: string)
    ensures NonBlank([p]) == if Trim(p) == [] then [] else [p]
  {
    assert [p][1..] == [];
  }

  /** The filter works piece by piece: the survivors of two runs of pieces, in order. */
  lemma {:induction false} NonBlankAppend(a: seq<string>, b: seq<string>)
    ensures NonBlank(a + b) == NonBlank(a) + NonBlank(b)
  {
    if a == [] {
      assert a + b == b;
    } else {
      assert (a + b)[0] == a[0] && (a + b)[1..] == a[1..] + b;
      NonBlankAppend(a[1..], b);
      var h := if Trim(a[0]) == [] then [] else [a[0]];
      assert h + (NonBlank(a[1..]) + NonBlank(b)) == (h + NonBlank(a[1..])) + NonBlank(b);
    }
  }

  /** `keyRaw.split(',').filter(x => x.trim() !== "").map(n => parseInt(n.trim()))`;
      `None` entries are the `NaN`s that `parseInt` gives for a piece without digits. */
  function ParseKey(text: string): (key: seq<Option<int>>)
    ensures |key| <= |SplitOn(text, ',')|
    ensures key == [] <==> forall i :: 0 <= i < |SplitOn(text, ',')| ==> Trim(SplitOn(text, ',')[i]) == []
    ensures forall i :: 0 <= i < |key| ==>
      exists p :: p in SplitOn(text, ',') && Trim(p) != [] && key[i] == ParseInt(Trim(p))
  {
    var all := SplitOn(text, ',');
    NonBlankNone(all);
    var pieces := NonBlank(all);
    var key := seq(|pieces|, i requires 0 <= i < |pieces| => ParseInt(Trim(pieces[i])));
    assert forall i :: 0 <= i < |key| ==> pieces[i] in all && Trim(pieces[i]) != [] && key[i] == ParseInt(Trim(pieces[i]));
    key
  }

  /** `key.join(',')` for a key of natural numbers. */
  function JoinKey(key: seq<nat>): (r: string)
    ensures key == [] ==> r == []
    ensures key != [] ==> SplitOn(r, ',') == seq(|key|, i requires 0 <= i < |key| => NatToString(key[i]))
  {
    var parts := seq(|key|, i requires 0 <= i < |key| => NatToString(key[i]));
    if key == [] then []
    else
      assert forall i :: 0 <= i < |parts| ==> ',' !in parts[i];
      SplitJoin(parts, ',');
      JoinWith(parts, ',')
  }

  /** The number `parseInt` reads back from the text `String(n)` is `n`. */
  lemma ParseNat(n: nat)
    ensures ParseInt(NatToString(n)) == Some(n)
  {
    ParseDigits(NatToString(n));
    NatToStringValue(n);
  }

  /** Decimal digits without a leading zero parse to their value. */
  lemma ParseDigits(s: string)
    requires s != [] && forall i :: 0 <= i < |s| ==> IsDigit(s[i])
    requires |s| >= 2 ==> s[0] != '0'
    ensures ParseInt(s) == Some(ValueIn(s, 10))
  {
    assert !IsSpace(s[0]) && s[0] != '-' && s[0] != '+';
    assert TrimStart(s) == s && Unsigned(s) == s;
    MagnitudeOfDigits(s);
  }

  lemma MagnitudeOfDigits(s: string)
    requires s != [] && forall i :: 0 <= i < |s| ==> IsDigit(s[i])
    requires |s| >= 2 ==> s[0] != '0'
    ensures ParseMagnitude(s) == Some(ValueIn(s, 10))
  {
    DigitRunAll(s);
    assert s[..|s|] == s;
  }

  lemma {:induction false} DigitRunAll(s: string)
    requires forall i :: 0 <= i < |s| ==> IsDigit(s[i])
    ensures DigitRun(s, 10) == |s|
  {
    if s != [] { DigitRunAll(s[1..]); }
  }

  /** Parsing the comma-joined output of a key generator gives back the same
      integers, in the same order (an empty key gives back an empty key). */
  lemma ParseJoinKey(key: seq<nat>)
    ensures ParseKey(JoinKey(key)) == seq(|key|, i requires 0 <= i < |key| => Some(key[i]))
  {
    var parts := seq(|key|, i requires 0 <= i < |key| => NatToString(key[i]));
    if key == [] {
      assert SplitOn(JoinKey(key), ',') == [[]];
    } else {
      forall i | 0 <= i < |parts| ensures ',' !in parts[i] && Trim(parts[i]) == parts[i] {
        TrimDigits(parts[i]);
      }
      SplitJoin(parts, ',');
      NonBlankKeepsAll(parts);
      forall i | 0 <= i < |key| ensures ParseInt(Trim(parts[i])) == Some(key[i]) {
        ParseNat(key[i]);
      }
    }
  }

  lemma TrimDigits(s: string)
    requires s != [] && forall i :: 0 <= i < |s| ==> IsDigit(s[i])
    ensures ',' !in s && Trim(s) == s && Trim(s) != []
  {
    assert !IsSpace(s[0]) && !IsSpace(s[|s| - 1]);
    assert TrimStart(s) == s;
  }

  lemma {:induction false} NonBlankKeepsAll(pieces: seq<string>)
    requires forall i :: 0 <= i < |pieces| ==> Trim(pieces[i]) != []
    ensures NonBlank(pieces) == pieces
  {
    if pieces != [] { NonBlankKeepsAll(pieces[1..]); }
  }
}
