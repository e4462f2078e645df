/** The integer logic of the gematria page, `static/js/gematria.js`: the
    square-shell coordinate mapper, the letter-value charts, the per-word
    totals, the segment and global totals, the letter count, the first-seen
    frequency table and the running cumulative sum. */
module Gematria {
  import opened Wrappers
  import opened Ascii
  import opened KeyText
  import opened Permutations
  import opened Seqs

  // ---- The square-shell coordinate mapper ----

  datatype Point = Point(x: int, y: int)

  lemma SquareMono(a: nat, b: nat)
    requires a <= b
    ensures a * a <= b * b
  {
    assert a * a <= a * b;
    assert a * b <= b * b;
  }

  /** `Math.floor(Math.sqrt(n))`, computed exactly. */
  function Isqrt(n: nat): (k: nat)
    ensures k * k <= n < (k + 1) * (k + 1)
  {
    if n == 0 then 0
    else
      var r := Isqrt(n - 1);
      assert (r + 2) * (r + 2) == (r + 1) * (r + 1) + 2 * r + 3;
      if (r + 1) * (r + 1) <= n then r + 1 else r
  }

  lemma IsqrtUnique(n: nat, k: nat)
    requires k * k <= n < (k + 1) * (k + 1)
    ensures Isqrt(n) == k
  {
    var r := Isqrt(n);
    if r < k {
      SquareMono(r + 1, k);
    } else if r > k {
      SquareMono(k + 1, r);
    }
  }

  /** `CoordinateMappers.shell`: `n` is placed on the shell of the square
      whose inner completed square has side `k = isqrt(n - 1)`, up the
      column `x = k` and then leftwards along the row `y = k`. */
  function Shell(n: int): (p: Point)
    ensures n <= 1 ==> p == Point(0, 0)
    ensures n >= 2 ==>
      var k := Isqrt(n - 1);
      0 <= p.x <= k && 0 <= p.y <= k && (p.x == k || p.y == k)
  {
    if n <= 1 then Point(0, 0)
    else
      var k := Isqrt(n - 1);
      var offset := n - k * k;
      if offset <= k + 1 then Point(k, offset - 1) else Point(k - (offset - (k + 1)), k)
  }

  /** The offset into the shell lies in `1..2k+1`, and the first arm holds
      the offsets up to `k + 1`. */
  lemma ShellOffset(n: int)
    requires n >= 2
    ensures var k := Isqrt(n - 1);
      k >= 1 && 1 <= n - k * k <= 2 * k + 1
      && (n - k * k <= k + 1 ==> Shell(n) == Point(k, n - k * k - 1))
      && (n - k * k > k + 1 ==> Shell(n) == Point(2 * k + 1 - (n - k * k), k))
  {
    var k := Isqrt(n - 1);
    assert (k + 1) * (k + 1) == k * k + 2 * k + 1;
  }

  /** The position of a point of the quadrant in the shell order: the
      inverse of `Shell` on `n >= 1`. */
  function ShellIndex(p: Point): (n: int)
    requires p.x >= 0 && p.y >= 0
    ensures n >= 1
  {
    var k := if p.x >= p.y then p.x else p.y;
    if p.x == k then k * k + p.y + 1 else k * k + 2 * k + 1 - p.x
  }

  lemma ShellInverse(n: int)
    requires n >= 1
    ensures Shell(n).x >= 0 && Shell(n).y >= 0
    ensures ShellIndex(Shell(n)) == n
  {
    if n >= 2 {
      ShellOffset(n);
    }
  }

  lemma ShellIndexInverse(p: Point)
    requires p.x >= 0 && p.y >= 0
    ensures Shell(ShellIndex(p)) == p
  {
    var k: nat := if p.x >= p.y then p.x else p.y;
    var n := ShellIndex(p);
    assert (k + 1) * (k + 1) == k * k + 2 * k + 1;
    if k > 0 {
      IsqrtUnique(n - 1, k);
    }
  }

  /** The mapper is one-to-one on the positive numbers, and every point of
      the quadrant is reached. */
  lemma ShellInjective(n1: int, n2: int)
    requires n1 >= 1 && n2 >= 1
    ensures Shell(n1) == Shell(n2) <==> n1 == n2
  {
    ShellInverse(n1);
    ShellInverse(n2);
  }

  // ---- Charts and totals ----

  /** The `scriptSelect` choice; `Indian` joins value strings instead of adding. */
  datatype System = Hebrew | Greek | Arabic | Indian

  function Chart(system: System): (chart: map<char, nat>)
    ensures system == Indian ==> forall c :: c in chart ==> chart[c] <= 9
    ensures system != Indian ==> forall c :: c in chart ==> 1 <= chart[c] <= 1000
  {
    match system
    case Hebrew => map['א' := 1, 'ב' := 2, 'ג' := 3, 'ד' := 4, 'ה' := 5, 'ו' := 6, 'ז' := 7, 'ח' := 8, 'ט' := 9,
                       'י' := 10, 'כ' := 20, 'ך' := 20, 'ל' := 30, 'מ' := 40, 'ם' := 40, 'נ' := 50, 'ן' := 50,
                       'ס' := 60, 'ע' := 70, 'פ' := 80, 'ף' := 80, 'צ' := 90, 'ץ' := 90, 'ק' := 100, 'ר' := 200,
                       'ש' := 300, 'ת' := 400]
    case Greek => map['α' := 1, 'β' := 2, 'γ' := 3, 'δ' := 4, 'ε' := 5, 'ζ' := 7, 'η' := 8, 'θ' := 9, 'ι' := 10,
                      'κ' := 20, 'λ' := 30, 'μ' := 40, 'ν' := 50, 'ξ' := 60, 'ο' := 70, 'π' := 80, 'ρ' := 100,
                      'σ' := 200, 'ς' := 200, 'τ' := 300, 'υ' := 400, 'φ' := 500, 'χ' := 600, 'ψ' := 700, 'ω' := 800]
    case Arabic => map['ا' := 1, 'ب' := 2, 'ج' := 3, 'د' := 4, 'ه' := 5, 'و' := 6, 'ز' := 7, 'ح' := 8, 'ط' := 9,
                       'ي' := 10, 'ك' := 20, 'ل' := 30, 'م' := 40, 'ن' := 50, 'س' := 60, 'ع' := 70, 'ف' := 80,
                       'ص' := 90, 'ق' := 100, 'ر' := 200, 'ش' := 300, 'ت' := 400, 'ث' := 500, 'خ' := 600,
                       'ذ' := 700, 'ض' := 800, 'ظ' := 900, 'غ' := 1000]
    case Indian => map['क' := 1, 'ख' := 2, 'ग' := 3, 'घ' := 4, 'ङ' := 5, 'च' := 6, 'छ' := 7, 'ज' := 8, 'झ' := 9,
                       'ञ' := 0, 'ट' := 1, 'ठ' := 2, 'ड' := 3, 'ढ' := 4, 'ण' := 5, 'त' := 6, 'थ' := 7, 'द' := 8,
                       'ध' := 9, 'न' := 0, 'प' := 1, 'फ' := 2, 'ब' := 3, 'भ' := 4, 'म' := 5, 'य' := 1, 'र' := 2,
                       'ल' := 3, 'व' := 4, 'श' := 5, 'ष' := 6, 'स' := 7, 'ह' := 8]
  }

  /** A running total: a number in the adding systems, a string of digits in
      the Indian one, where `+=` appends. */
  datatype Total = Num(n: nat) | Digits(s: string)

  predicate OfKind(t: Total, indian: bool) {
    if indian then t.Digits? && forall i :: 0 <= i < |t.s| ==> IsDigit(t.s[i]) else t.Num?
  }

  /** The initial value, `""` or `0`. */
  function Zero(indian: bool): (z: Total)
    ensures OfKind(z, indian)
  {
    if indian then Digits([]) else Num(0)
  }

  /** JavaScript's `+` on two numbers or on two strings. */
  function Plus(a: Total, b: Total): (r: Total)
    ensures OfKind(a, true) && OfKind(b, true) ==> OfKind(r, true)
    ensures OfKind(a, false) && OfKind(b, false) ==> OfKind(r, false)
  {
    match (a, b)
    case (Num(x), Num(y)) => Num(x + y)
    case (Digits(x), Digits(y)) => Digits(x + y)
    case _ => a
  }

  lemma PlusZero(t: Total, indian: bool)
    requires OfKind(t, indian)
    ensures Plus(t, Zero(indian)) == t && Plus(Zero(indian), t) == t
  {
    if indian {
      assert t.s + [] == t.s && [] + t.s == t.s;
    }
  }

  lemma PlusAssoc(a: Total, b: Total, c: Total, indian: bool)
    requires OfKind(a, indian) && OfKind(b, indian) && OfKind(c, indian)
    ensures Plus(Plus(a, b), c) == Plus(a, Plus(b, c))
  {
    if indian {
      assert (a.s + b.s) + c.s == a.s + (b.s + c.s);
    }
  }

  /** `chart[c] !== undefined` for the lower-cased character. */
  predicate Charted(keys: set<char>, c: char) { ToLower(c) in keys }

  /** A chart value as a total: the number itself, or its decimal text. */
  function ValueTotal(v: nat, indian: bool): (t: Total)
    ensures OfKind(t, indian)
    ensures indian ==> t == Digits(NatToString(v))
    ensures !indian ==> t == Num(v)
  {
    if indian then Digits(NatToString(v)) else Num(v)
  }

  /** What one charted character adds: its value, or its value's decimal text. */
  function Piece(chart: map<char, nat>, c: char, indian: bool): (t: Total)
    requires Charted(chart.Keys, c)
    ensures OfKind(t, indian)
  {
    ValueTotal(chart[ToLower(c)], indian)
  }

  /** The total of the charted characters of `s`, in order; the others add nothing. */
  function CharTotal(chart: map<char, nat>, s: string, indian: bool): (t: Total)
    ensures OfKind(t, indian)
  {
    if s == [] then Zero(indian)
    else
      var p := CharTotal(chart, s[..|s| - 1], indian);
      if Charted(chart.Keys, s[|s| - 1]) then Plus(p, Piece(chart, s[|s| - 1], indian)) else p
  }

  /** A chart that gives each of `keys` the value 1. */
  function Ones(keys: set<char>): (m: map<char, nat>)
    ensures m.Keys == keys
  {
    map c | c in keys :: 1
  }

  /** How many characters of `s` are charted. */
  function CharCount(keys: set<char>, s: string): nat {
    CharTotal(Ones(keys), s, false).n
  }

  lemma {:induction false} CharTotalAppend(chart: map<char, nat>, a: string, b: string, indian: bool)
    ensures CharTotal(chart, a + b, indian) == Plus(CharTotal(chart, a, indian), CharTotal(chart, b, indian))
  {
    if b == [] {
      assert a + b == a;
      PlusZero(CharTotal(chart, a, indian), indian);
    } else {
      var b' := b[..|b| - 1];
      var x := b[|b| - 1];
      assert (a + b)[..|a + b| - 1] == a + b';
      assert (a + b)[|a + b| - 1] == x;
      CharTotalAppend(chart, a, b', indian);
      if Charted(chart.Keys, x) {
        PlusAssoc(CharTotal(chart, a, indian), CharTotal(chart, b', indian), Piece(chart, x, indian), indian);
      }
    }
  }

  /** A text without charted characters totals nothing. */
  lemma {:induction false} UnchartedZero(chart: map<char, nat>, s: string, indian: bool)
    requires forall i :: 0 <= i < |s| ==> !Charted(chart.Keys, s[i])
    ensures CharTotal(chart, s, indian) == Zero(indian)
  {
    if s != [] {
      UnchartedZero(chart, s[..|s| - 1], indian);
    }
  }

  // ---- Sums of totals ----

  /** The totals of a list of texts. */
  function Totals(chart: map<char, nat>, ws: seq<string>, indian: bool): (r: seq<Total>)
    ensures |r| == |ws|
    ensures forall i :: 0 <= i < |r| ==> OfKind(r[i], indian)
  {
    seq(|ws|, i requires 0 <= i < |ws| => CharTotal(chart, ws[i], indian))
  }

  lemma TotalsAppend(chart: map<char, nat>, xs: seq<string>, ys: seq<string>, indian: bool)
    ensures Totals(chart, xs + ys, indian) == Totals(chart, xs, indian) + Totals(chart, ys, indian)
  {
    var l := Totals(chart, xs + ys, indian);
    var r := Totals(chart, xs, indian) + Totals(chart, ys, indian);
    assert forall i :: 0 <= i < |l| ==> l[i] == r[i];
  }

  /** The totals added up left to right, starting from `Zero`. */
  function Sum(ts: seq<Total>, indian: bool): (t: Total)
    ensures (forall i :: 0 <= i < |ts| ==> OfKind(ts[i], indian)) ==> OfKind(t, indian)
  {
    if ts == [] then Zero(indian) else Plus(Sum(ts[..|ts| - 1], indian), ts[|ts| - 1])
  }

  lemma {:induction false} SumCons(t: Total, ts: seq<Total>, indian: bool)
    requires OfKind(t, indian) && forall i :: 0 <= i < |ts| ==> OfKind(ts[i], indian)
    ensures Sum([t] + ts, indian) == Plus(t, Sum(ts, indian))
  {
    if ts == [] {
      assert ([t] + ts)[..0] == [];
      PlusZero(t, indian);
    } else {
      var u := ts[|ts| - 1];
      var ts' := ts[..|ts| - 1];
      assert ([t] + ts)[..|[t] + ts| - 1] == [t] + ts';
      SumCons(t, ts', indian);
      PlusAssoc(t, Sum(ts', indian), u, indian);
    }
  }

  lemma {:induction false} SumAppend(xs: seq<Total>, ys: seq<Total>, indian: bool)
    requires forall i :: 0 <= i < |xs| ==> OfKind(xs[i], indian)
    requires forall i :: 0 <= i < |ys| ==> OfKind(ys[i], indian)
    ensures Sum(xs + ys, indian) == Plus(Sum(xs, indian), Sum(ys, indian))
  {
    if ys == [] {
      assert xs + ys == xs;
      PlusZero(Sum(xs, indian), indian);
    } else {
      var u := ys[|ys| - 1];
      var ys' := ys[..|ys| - 1];
      assert (xs + ys)[..|xs + ys| - 1] == xs + ys';
      SumAppend(xs, ys', indian);
      PlusAssoc(Sum(xs, indian), Sum(ys', indian), u, indian);
    }
  }

  // ---- Segments and words ----

  /** The punctuation that ends a segment. */
  predicate IsMarker(c: char) { c == ',' || c == ';' || c == '.' || c == ':' }

  /** `split` at every character `sep` accepts: the pieces between them,
      empty ones included. */
  function SplitWhere(s: string, sep: char -> bool): (r: seq<string>)
    ensures |r| >= 1
    ensures forall i, j :: 0 <= i < |r| && 0 <= j < |r[i]| ==> !sep(r[i][j])
  {
    if s == [] then [[]]
    else
      var rest := SplitWhere(s[1..], sep);
      if sep(s[0]) then [[]] + rest else [[s[0]] + rest[0]] + rest[1..]
  }

  /** The characters of `s` that `sep` accepts, in order: what `split` cuts out. */
  function Separators(s: string, sep: char -> bool): (r: string)
    ensures forall i :: 0 <= i < |r| ==> sep(r[i])
  {
    if s == [] then [] else (if sep(s[0]) then [s[0]] else []) + Separators(s[1..], sep)
  }

  /** The pieces joined back with one separator between each two neighbours. */
  function Interleave(pieces: seq<string>, seps: string): string
    requires |pieces| == |seps| + 1
    decreases |seps|
  {
    if seps == [] then pieces[0]
    else pieces[0] + [seps[0]] + Interleave(pieces[1..], seps[1..])
  }

  /** Splitting loses nothing: there is one more piece than separators, and
      putting the separators back between the pieces gives the text again.
      With the pieces free of separators, this fixes the split completely. */
  lemma {:induction false} SplitWhereJoin(s: string, sep: char -> bool)
    ensures |SplitWhere(s, sep)| == |Separators(s, sep)| + 1
    ensures Interleave(SplitWhere(s, sep), Separators(s, sep)) == s
    decreases |s|
  {
    if s != [] {
      var rest := SplitWhere(s[1..], sep);
      var ss := Separators(s[1..], sep);
      SplitWhereJoin(s[1..], sep);
      HeadTail(s);
      if sep(s[0]) {
        assert ([[]] + rest)[1..] == rest && ([s[0]] + ss)[1..] == ss;
      } else {
        assert Separators(s, sep) == ss;
        InterleaveHead(s[0], rest, ss);
      }
    }
  }

  lemma InterleaveHead(c: char, ps: seq<string>, ss: string)
    requires |ps| == |ss| + 1
    ensures Interleave([[c] + ps[0]] + ps[1..], ss) == [c] + Interleave(ps, ss)
  {
    if ss != [] {
      assert ([[c] + ps[0]] + ps[1..])[1..] == ps[1..];
    }
  }

  /** The pieces that are not empty, in order (`filter(w => w.length > 0)`). */
  function NonEmpty(ws: seq<string>): (r: seq<string>)
    ensures forall i :: 0 <= i < |r| ==> r[i] != [] && r[i] in ws
  {
    if ws == [] then [] else (if ws[0] == [] then [] else [ws[0]]) + NonEmpty(ws[1..])
  }

  /** One piece survives exactly when it is not empty. */
  lemma NonEmptyOne(w: string)
    ensures NonEmpty([w]) == if w == [] then [] else [w]
  {
    assert [w][1..] == [];
  }

  /** The filter works piece by piece: the survivors of two runs of pieces, in order. */
  lemma {:induction false} NonEmptyAppend(a: seq<string>, b: seq<string>)
    ensures NonEmpty(a + b) == NonEmpty(a) + NonEmpty(b)
  {
    if a == [] {
      assert a + b == b;
    } else {
      ConsAppend(a, b);
      NonEmptyAppend(a[1..], b);
      AppendAssoc(if a[0] == [] then [] else [a[0]], NonEmpty(a[1..]), NonEmpty(b));
    }
  }

  /** `segment.trim().split(/\s+/).filter(w => w.length > 0)`: splitting at
      each white-space character and dropping the empty pieces gives the
      same words as splitting at runs of it. */
  function Words(s: string): (ws: seq<string>)
    ensures forall i :: 0 <= i < |ws| ==> ws[i] != [] && forall j :: 0 <= j < |ws[i]| ==> !IsSpace(ws[i][j])
  {
    NonEmpty(SplitWhere(Trim(s), IsSpace))
  }

  /** `rawText.split(/([,;.:])/).filter(s => s && s.trim().length > 0)` with
      the markers themselves skipped: the non-blank stretches between
      punctuation marks. */
  function Segments(text: string): (segs: seq<string>)
    ensures forall i :: 0 <= i < |segs| ==> Trim(segs[i]) != [] && forall j :: 0 <= j < |segs[i]| ==> !IsMarker(segs[i][j])
  {
    NonBlank(SplitWhere(text, IsMarker))
  }

  /** `validCharInWord` once a word has been scanned. */
  predicate HasCharted(keys: set<char>, w: string) {
    exists i :: 0 <= i < |w| && Charted(keys, w[i])
  }

  /** The words that reach the summation: those with a charted character. */
  function ValidWords(keys: set<char>, ws: seq<string>): (r: seq<string>)
    ensures forall i :: 0 <= i < |r| ==> HasCharted(keys, r[i])
  {
    if ws == [] then [] else (if HasCharted(keys, ws[0]) then [ws[0]] else []) + ValidWords(keys, ws[1..])
  }

  /** The valid words of all segments, in order: the word summation list. */
  function AllValid(keys: set<char>, segs: seq<string>): seq<string> {
    if segs == [] then [] else ValidWords(keys, Words(segs[0])) + AllValid(keys, segs[1..])
  }

  /** The punctuation-summation entry of one segment: its sum, when it has a valid word. */
  function SegmentEntry(chart: map<char, nat>, seg: string, indian: bool): (r: seq<Total>)
    ensures |r| <= 1 && forall i :: 0 <= i < |r| ==> OfKind(r[i], indian)
  {
    var v := ValidWords(chart.Keys, Words(seg));
    if v == [] then [] else [Sum(Totals(chart, v, indian), indian)]
  }

  /** One sum per segment that has a valid word: the punctuation summation. */
  function SegmentSums(chart: map<char, nat>, segs: seq<string>, indian: bool): (r: seq<Total>)
    ensures forall i :: 0 <= i < |r| ==> OfKind(r[i], indian)
  {
    if segs == [] then [] else SegmentEntry(chart, segs[0], indian) + SegmentSums(chart, segs[1..], indian)
  }

  /** No chart gives a value to punctuation or white space. */
  predicate SeparatorFree(keys: set<char>) {
    forall c :: IsMarker(c) || IsSpace(c) ==> ToLower(c) !in keys
  }

  /** Every chart letter lies in the block from Greek to Devanagari. */
  lemma ChartRange(system: System)
    ensures forall k :: k in Chart(system).Keys ==> 0x3B0 <= k as int < 0x1000
  {
    match system
    case Hebrew => HebrewRange();
    case Greek => GreekRange();
    case Arabic => ArabicRange();
    case Indian => IndianRange();
  }

  lemma HebrewRange()
    ensures forall k :: k in Chart(Hebrew).Keys ==> 0x3B0 <= k as int < 0x1000
  {
  }

  lemma GreekRange()
    ensures forall k :: k in Chart(Greek).Keys ==> 0x3B0 <= k as int < 0x1000
  {
  }

  lemma ArabicRange()
    ensures forall k :: k in Chart(Arabic).Keys ==> 0x3B0 <= k as int < 0x1000
  {
  }

  lemma IndianRange()
    ensures forall k :: k in Chart(Indian).Keys ==> 0x3B0 <= k as int < 0x1000
  {
  }

  lemma ChartsSeparatorFree(system: System)
    ensures SeparatorFree(Chart(system).Keys)
  {
    ChartRange(system);
  }

  // ---- The totals add up to the total of the whole text ----

  lemma SumTotalsCons(chart: map<char, nat>, w: string, ws: seq<string>, indian: bool)
    ensures Sum(Totals(chart, [w] + ws, indian), indian)
            == Plus(CharTotal(chart, w, indian), Sum(Totals(chart, ws, indian), indian))
  {
    TotalsAppend(chart, [w], ws, indian);
    assert Totals(chart, [w], indian) == [CharTotal(chart, w, indian)];
    SumCons(CharTotal(chart, w, indian), Totals(chart, ws, indian), indian);
  }

  lemma SumTotalsAppend(chart: map<char, nat>, xs: seq<string>, ys: seq<string>, indian: bool)
    ensures Sum(Totals(chart, xs + ys, indian), indian)
            == Plus(Sum(Totals(chart, xs, indian), indian), Sum(Totals(chart, ys, indian), indian))
  {
    TotalsAppend(chart, xs, ys, indian);
    SumAppend(Totals(chart, xs, indian), Totals(chart, ys, indian), indian);
  }

  /** One step of `SplitTotal`: a piece that continues past a non-separator. */
  lemma SplitTotalJoin(chart: map<char, nat>, c: char, rest: seq<string>, indian: bool)
    requires rest != []
    ensures Sum(Totals(chart, [[c] + rest[0]] + rest[1..], indian), indian)
            == Plus(CharTotal(chart, [c], indian), Sum(Totals(chart, rest, indian), indian))
  {
    var tail := Sum(Totals(chart, rest[1..], indian), indian);
    HeadTail(rest);
    SumTotalsCons(chart, [c] + rest[0], rest[1..], indian);
    SumTotalsCons(chart, rest[0], rest[1..], indian);
    CharTotalAppend(chart, [c], rest[0], indian);
    PlusAssoc(CharTotal(chart, [c], indian), CharTotal(chart, rest[0], indian), tail, indian);
  }

  lemma {:induction false} SplitTotal(chart: map<char, nat>, s: string, sep: char -> bool, indian: bool)
    requires forall c :: sep(c) ==> !Charted(chart.Keys, c)
    ensures Sum(Totals(chart, SplitWhere(s, sep), indian), indian) == CharTotal(chart, s, indian)
  {
    var r := SplitWhere(s, sep);
    if s == [] {
      assert r == [[]];
      SumTotalsCons(chart, [], [], indian);
      PlusZero(Zero(indian), indian);
    } else {
      var rest := SplitWhere(s[1..], sep);
      SplitTotal(chart, s[1..], sep, indian);
      HeadTail(s);
      CharTotalAppend(chart, [s[0]], s[1..], indian);
      var tail := CharTotal(chart, s[1..], indian);
      assert CharTotal(chart, s, indian) == Plus(CharTotal(chart, [s[0]], indian), tail);
      if sep(s[0]) {
        assert r == [[]] + rest;
        assert CharTotal(chart, [s[0]], indian) == Zero(indian) by {
          UnchartedZero(chart, [s[0]], indian);
        }
        PlusZero(tail, indian);
        SumTotalsCons(chart, [], rest, indian);
        PlusZero(Sum(Totals(chart, rest, indian), indian), indian);
      } else {
        assert r == [[s[0]] + rest[0]] + rest[1..];
        SplitTotalJoin(chart, s[0], rest, indian);
      }
    }
  }

  /** Dropping pieces that total `Zero` leaves the sum unchanged, one piece at a time. */
  lemma DropZeroHead(chart: map<char, nat>, ws: seq<string>, kept: seq<string>, rest: seq<string>, indian: bool)
    requires ws != []
    requires kept == [ws[0]] + rest || (CharTotal(chart, ws[0], indian) == Zero(indian) && kept == rest)
    requires Sum(Totals(chart, rest, indian), indian) == Sum(Totals(chart, ws[1..], indian), indian)
    ensures Sum(Totals(chart, kept, indian), indian) == Sum(Totals(chart, ws, indian), indian)
  {
    HeadTail(ws);
    SumTotalsCons(chart, ws[0], ws[1..], indian);
    if kept == [ws[0]] + rest {
      SumTotalsCons(chart, ws[0], rest, indian);
    } else {
      PlusZero(Sum(Totals(chart, ws[1..], indian), indian), indian);
    }
  }

  lemma {:induction false} NonEmptyTotal(chart: map<char, nat>, ws: seq<string>, indian: bool)
    ensures Sum(Totals(chart, NonEmpty(ws), indian), indian) == Sum(Totals(chart, ws, indian), indian)
  {
    if ws != [] {
      NonEmptyTotal(chart, ws[1..], indian);
      DropZeroHead(chart, ws, NonEmpty(ws), NonEmpty(ws[1..]), indian);
    }
  }

  lemma {:induction false} ValidWordsTotal(chart: map<char, nat>, ws: seq<string>, indian: bool)
    ensures Sum(Totals(chart, ValidWords(chart.Keys, ws), indian), indian) == Sum(Totals(chart, ws, indian), indian)
  {
    if ws != [] {
      ValidWordsTotal(chart, ws[1..], indian);
      if !HasCharted(chart.Keys, ws[0]) {
        UnchartedZero(chart, ws[0], indian);
      }
      DropZeroHead(chart, ws, ValidWords(chart.Keys, ws), ValidWords(chart.Keys, ws[1..]), indian);
    }
  }

  lemma {:induction false} NonBlankTotal(chart: map<char, nat>, ws: seq<string>, indian: bool)
    requires SeparatorFree(chart.Keys)
    ensures Sum(Totals(chart, NonBlank(ws), indian), indian) == Sum(Totals(chart, ws, indian), indian)
  {
    if ws != [] {
      NonBlankTotal(chart, ws[1..], indian);
      if Trim(ws[0]) == [] {
        TrimEmptyIffAllSpace(ws[0]);
        UnchartedZero(chart, ws[0], indian);
      }
      DropZeroHead(chart, ws, NonBlank(ws), NonBlank(ws[1..]), indian);
    }
  }

  /** Characters outside `s[i..j]` that no chart values do not change the total. */
  lemma UnchartedEdges(chart: map<char, nat>, s: string, i: nat, j: nat, indian: bool)
    requires i <= j <= |s|
    requires forall k :: 0 <= k < i ==> !Charted(chart.Keys, s[k])
    requires forall k :: j <= k < |s| ==> !Charted(chart.Keys, s[k])
    ensures CharTotal(chart, s[i..j], indian) == CharTotal(chart, s, indian)
  {
    var mid := s[i..j];
    assert s == s[..i] + (mid + s[j..]);
    CharTotalAppend(chart, s[..i], mid + s[j..], indian);
    CharTotalAppend(chart, mid, s[j..], indian);
    UnchartedZero(chart, s[..i], indian);
    UnchartedZero(chart, s[j..], indian);
    PlusZero(CharTotal(chart, mid, indian), indian);
    PlusZero(CharTotal(chart, mid + s[j..], indian), indian);
  }

  /** Trimming removes only white space, which no chart values. */
  lemma TrimTotal(chart: map<char, nat>, s: string, indian: bool)
    requires SeparatorFree(chart.Keys)
    ensures CharTotal(chart, Trim(s), indian) == CharTotal(chart, s, indian)
  {
    var a := LeadingSpaces(s);
    var t := s[a..];
    var b := TrailingSpaces(t);
    var e := a + |t| - b;
    assert Trim(s) == s[a..e];
    forall k | 0 <= k < a ensures !Charted(chart.Keys, s[k]) {
      assert IsSpace(s[k]);
    }
    forall k | e <= k < |s| ensures !Charted(chart.Keys, s[k]) {
      assert s[k] == t[k - a] && IsSpace(t[k - a]);
    }
    UnchartedEdges(chart, s, a, e, indian);
  }

  /** The valid words of a segment add up to the segment's total. */
  lemma WordsTotal(chart: map<char, nat>, seg: string, indian: bool)
    requires SeparatorFree(chart.Keys)
    ensures Sum(Totals(chart, ValidWords(chart.Keys, Words(seg)), indian), indian) == CharTotal(chart, seg, indian)
  {
    var pieces := SplitWhere(Trim(seg), IsSpace);
    ValidWordsTotal(chart, Words(seg), indian);
    NonEmptyTotal(chart, pieces, indian);
    SplitTotal(chart, Trim(seg), IsSpace, indian);
    TrimTotal(chart, seg, indian);
  }

  lemma {:induction false} AllValidTotal(chart: map<char, nat>, segs: seq<string>, indian: bool)
    requires SeparatorFree(chart.Keys)
    ensures Sum(Totals(chart, AllValid(chart.Keys, segs), indian), indian) == Sum(Totals(chart, segs, indian), indian)
  {
    if segs != [] {
      var v := ValidWords(chart.Keys, Words(segs[0]));
      AllValidTotal(chart, segs[1..], indian);
      WordsTotal(chart, segs[0], indian);
      SumTotalsAppend(chart, v, AllValid(chart.Keys, segs[1..]), indian);
      HeadTail(segs);
      SumTotalsCons(chart, segs[0], segs[1..], indian);
    }
  }

  /** The global total is the total of the text's charted characters: the
      segmenting and word splitting lose nothing and count nothing twice. */
  lemma GlobalIsTextTotal(chart: map<char, nat>, text: string, indian: bool)
    requires SeparatorFree(chart.Keys)
    ensures Sum(Totals(chart, AllValid(chart.Keys, Segments(text)), indian), indian) == CharTotal(chart, text, indian)
  {
    AllValidTotal(chart, Segments(text), indian);
    NonBlankTotal(chart, SplitWhere(text, IsMarker), indian);
    SplitTotal(chart, text, IsMarker, indian);
  }

  /** The punctuation sums add up to the global total. */
  lemma {:induction false} SegmentSumsTotal(chart: map<char, nat>, segs: seq<string>, indian: bool)
    ensures Sum(SegmentSums(chart, segs, indian), indian) == Sum(Totals(chart, AllValid(chart.Keys, segs), indian), indian)
  {
    if segs == [] {
    } else {
      var v := ValidWords(chart.Keys, Words(segs[0]));
      var head := SegmentEntry(chart, segs[0], indian);
      var rest := AllValid(chart.Keys, segs[1..]);
      SegmentSumsTotal(chart, segs[1..], indian);
      SumAppend(head, SegmentSums(chart, segs[1..], indian), indian);
      TotalsAppend(chart, v, rest, indian);
      SumAppend(Totals(chart, v, indian), Totals(chart, rest, indian), indian);
      if v == [] {
        assert head == [] && Totals(chart, v, indian) == [];
        PlusZero(Sum(SegmentSums(chart, segs[1..], indian), indian), indian);
        PlusZero(Sum(Totals(chart, rest, indian), indian), indian);
      } else {
        assert head[..0] == [];
        PlusZero(head[0], indian);
      }
    }
  }

  // ---- Letter counts ----

  /** How many charted characters a list of words holds: their total under
      the chart that gives every letter 1. */
  function Letters(keys: set<char>, ws: seq<string>): nat {
    Sum(Totals(Ones(keys), ws, false), false).n
  }

  lemma LettersAppend(keys: set<char>, xs: seq<string>, ys: seq<string>)
    ensures Letters(keys, xs + ys) == Letters(keys, xs) + Letters(keys, ys)
  {
    SumTotalsAppend(Ones(keys), xs, ys, false);
  }

  lemma LettersSingle(keys: set<char>, w: string)
    ensures Letters(keys, [w]) == CharCount(keys, w)
  {
    SumTotalsCons(Ones(keys), w, [], false);
  }

  /** The letter count is the number of charted characters in the text. */
  lemma LettersAreTextLetters(keys: set<char>, text: string)
    requires SeparatorFree(keys)
    ensures Letters(keys, AllValid(keys, Segments(text))) == CharCount(keys, text)
  {
    GlobalIsTextTotal(Ones(keys), text, false);
  }

  // ---- Scanning one word and one segment ----

  lemma CharStep(chart: map<char, nat>, word: string, i: nat, indian: bool)
    requires i < |word|
    ensures CharTotal(chart, word[..i + 1], indian)
            == if Charted(chart.Keys, word[i]) then Plus(CharTotal(chart, word[..i], indian), Piece(chart, word[i], indian))
               else CharTotal(chart, word[..i], indian)
    ensures CharCount(chart.Keys, word[..i + 1])
            == CharCount(chart.Keys, word[..i]) + if Charted(chart.Keys, word[i]) then 1 else 0
    ensures HasCharted(chart.Keys, word[..i + 1]) <==> HasCharted(chart.Keys, word[..i]) || Charted(chart.Keys, word[i])
  {
    TotalStep(chart, word, i, indian);
    TotalStep(Ones(chart.Keys), word, i, false);
    HasChartedStep(chart.Keys, word, i);
  }

  lemma TotalStep(chart: map<char, nat>, word: string, i: nat, indian: bool)
    requires i < |word|
    ensures CharTotal(chart, word[..i + 1], indian)
            == if Charted(chart.Keys, word[i]) then Plus(CharTotal(chart, word[..i], indian), Piece(chart, word[i], indian))
               else CharTotal(chart, word[..i], indian)
  {
    var w := word[..i + 1];
    assert w[..|w| - 1] == word[..i] && w[|w| - 1] == word[i];
  }

  lemma HasChartedStep(keys: set<char>, word: string, i: nat)
    requires i < |word|
    ensures HasCharted(keys, word[..i + 1]) <==> HasCharted(keys, word[..i]) || Charted(keys, word[i])
  {
    var w := word[..i + 1];
    assert w[..i] == word[..i] && w[i] == word[i];
    if HasCharted(keys, w) {
      var k :| 0 <= k < |w| && Charted(keys, w[k]);
      if k < i {
        assert word[..i][k] == w[k];
      }
    }
    if HasCharted(keys, word[..i]) {
      var k :| 0 <= k < i && Charted(keys, word[..i][k]);
      assert w[k] == word[..i][k];
    }
  }

  /** The loop over the characters of one word (gematria.js:186-198). */
  method WordValue(chart: map<char, nat>, word: string, indian: bool) returns (total: Total, valid: bool, letters: nat)
    ensures total == CharTotal(chart, word, indian)
    ensures valid <==> HasCharted(chart.Keys, word)
    ensures letters == CharCount(chart.Keys, word)
  {
    var normalized := Lower(word);
    total := Zero(indian);
    valid := false;
    letters := 0;
    var i := 0;
    while i < |normalized|
      invariant 0 <= i <= |word|
      invariant total == CharTotal(chart, word[..i], indian)
      invariant valid <==> HasCharted(chart.Keys, word[..i])
      invariant letters == CharCount(chart.Keys, word[..i])
    {
      var c := normalized[i];
      CharStep(chart, word, i, indian);
      if c in chart {
        valid := true;
        letters := letters + 1;
        var v := if indian then Digits(NatToString(chart[c])) else Num(chart[c]);
        total := Plus(total, v);
      }
      i := i + 1;
    }
    assert word[..i] == word;
  }

  lemma {:induction false} ValidWordsAppend(keys: set<char>, xs: seq<string>, ys: seq<string>)
    ensures ValidWords(keys, xs + ys) == ValidWords(keys, xs) + ValidWords(keys, ys)
  {
    if xs == [] {
      assert xs + ys == ys;
    } else {
      ConsAppend(xs, ys);
      ValidWordsAppend(keys, xs[1..], ys);
    }
  }

  lemma WordStep(chart: map<char, nat>, words: seq<string>, i: nat, indian: bool)
    requires i < |words|
    ensures ValidWords(chart.Keys, words[..i + 1])
            == ValidWords(chart.Keys, words[..i]) + if HasCharted(chart.Keys, words[i]) then [words[i]] else []
    ensures Letters(chart.Keys, ValidWords(chart.Keys, words[..i + 1]))
            == Letters(chart.Keys, ValidWords(chart.Keys, words[..i])) + CharCount(chart.Keys, words[i])
  {
    var keys := chart.Keys;
    assert words[..i + 1] == words[..i] + [words[i]];
    ValidWordsAppend(keys, words[..i], [words[i]]);
    assert ValidWords(keys, [words[i]]) == if HasCharted(keys, words[i]) then [words[i]] else [];
    LettersAppend(keys, ValidWords(keys, words[..i]), ValidWords(keys, [words[i]]));
    if HasCharted(keys, words[i]) {
      LettersSingle(keys, words[i]);
    } else {
      UnchartedZero(Ones(keys), words[i], false);
    }
  }

  lemma SumSnoc(ts: seq<Total>, t: Total, indian: bool)
    ensures Sum(ts + [t], indian) == Plus(Sum(ts, indian), t)
  {
    assert (ts + [t])[..|ts|] == ts;
  }

  /** The state of the word loop after the first `i` words. */
  predicate WordsDone(chart: map<char, nat>, words: seq<string>, i: nat, indian: bool, global0: Total, active0: nat,
                      segmentSum: Total, segmentTotals: seq<Total>, global: Total, active: nat)
    requires i <= |words|
  {
    && segmentTotals == Totals(chart, ValidWords(chart.Keys, words[..i]), indian)
    && segmentSum == Sum(segmentTotals, indian)
    && global == Plus(global0, segmentSum)
    && active == active0 + Letters(chart.Keys, ValidWords(chart.Keys, words[..i]))
  }

  lemma WordTotalsStep(chart: map<char, nat>, words: seq<string>, i: nat, indian: bool)
    requires i < |words|
    ensures Totals(chart, ValidWords(chart.Keys, words[..i + 1]), indian)
            == Totals(chart, ValidWords(chart.Keys, words[..i]), indian)
               + if HasCharted(chart.Keys, words[i]) then [CharTotal(chart, words[i], indian)] else []
  {
    var keys := chart.Keys;
    var extra := if HasCharted(keys, words[i]) then [words[i]] else [];
    WordStep(chart, words, i, indian);
    TotalsAppend(chart, ValidWords(keys, words[..i]), extra, indian);
    if HasCharted(keys, words[i]) {
      assert Totals(chart, extra, indian) == [CharTotal(chart, words[i], indian)];
    } else {
      assert Totals(chart, extra, indian) == [];
    }
  }

  /** One pass of the word loop: word `i` is scanned, its letters counted,
      and its total added when it holds a charted character. */
  method AddWord(chart: map<char, nat>, words: seq<string>, i: nat, indian: bool, global0: Total, active0: nat,
                 segmentSum0: Total, segmentTotals0: seq<Total>, globalIn: Total, activeIn: nat)
    returns (segmentSum: Total, segmentTotals: seq<Total>, global: Total, active: nat)
    requires i < |words| && OfKind(global0, indian)
    requires WordsDone(chart, words, i, indian, global0, active0, segmentSum0, segmentTotals0, globalIn, activeIn)
    ensures WordsDone(chart, words, i + 1, indian, global0, active0, segmentSum, segmentTotals, global, active)
  {
    var total, valid, letters := WordValue(chart, words[i], indian);
    WordStep(chart, words, i, indian);
    WordTotalsStep(chart, words, i, indian);
    active := activeIn + letters;
    segmentSum, segmentTotals, global := segmentSum0, segmentTotals0, globalIn;
    if valid {
      SumSnoc(segmentTotals0, total, indian);
      PlusAssoc(global0, segmentSum0, total, indian);
      segmentTotals := segmentTotals0 + [total];
      segmentSum := Plus(segmentSum0, total);
      global := Plus(globalIn, total);
    }
  }

  /** The loop over the words of one segment (gematria.js:184-231): the word
      totals that reach the summation, their sum, and the running global
      total and letter count. */
  method ProcessWords(chart: map<char, nat>, words: seq<string>, indian: bool, global0: Total, active0: nat)
    returns (segmentSum: Total, segmentTotals: seq<Total>, global: Total, active: nat)
    requires OfKind(global0, indian)
    ensures segmentTotals == Totals(chart, ValidWords(chart.Keys, words), indian)
    ensures segmentSum == Sum(segmentTotals, indian)
    ensures global == Plus(global0, segmentSum)
    ensures active == active0 + Letters(chart.Keys, ValidWords(chart.Keys, words))
  {
    segmentSum := Zero(indian);
    segmentTotals := [];
    global := global0;
    active := active0;
    PlusZero(global0, indian);
    var i := 0;
    while i < |words|
      invariant 0 <= i <= |words|
      invariant WordsDone(chart, words, i, indian, global0, active0, segmentSum, segmentTotals, global, active)
    {
      segmentSum, segmentTotals, global, active :=
        AddWord(chart, words, i, indian, global0, active0, segmentSum, segmentTotals, global, active);
      i := i + 1;
    }
    assert words[..i] == words;
  }

  // ---- The frequency table ----

  /** The sum of the counts of the characters of `order`. */
  function FreqSum(order: seq<char>, freq: map<char, nat>): nat
    requires forall k :: 0 <= k < |order| ==> order[k] in freq
  {
    if order == [] then 0 else FreqSum(order[..|order| - 1], freq) + freq[order[|order| - 1]]
  }

  lemma {:induction false} FreqSumUntouched(order: seq<char>, freq: map<char, nat>, c: char, v: nat)
    requires forall k :: 0 <= k < |order| ==> order[k] in freq && order[k] != c
    ensures FreqSum(order, freq[c := v]) == FreqSum(order, freq)
  {
    if order != [] {
      FreqSumUntouched(order[..|order| - 1], freq, c, v);
    }
  }

  lemma {:induction false} FreqSumBump(order: seq<char>, freq: map<char, nat>, c: char)
    requires forall k :: 0 <= k < |order| ==> order[k] in freq
    requires forall a, b :: 0 <= a < b < |order| ==> order[a] != order[b]
    requires c in order && c in freq
    ensures FreqSum(order, freq[c := freq[c] + 1]) == FreqSum(order, freq) + 1
  {
    var p := order[..|order| - 1];
    var last := order[|order| - 1];
    if last == c {
      assert forall k :: 0 <= k < |p| ==> p[k] == order[k] && p[k] != c;
      FreqSumUntouched(p, freq, c, freq[c] + 1);
    } else {
      var j :| 0 <= j < |order| && order[j] == c;
      assert p[j] == c;
      FreqSumBump(p, freq, c);
    }
  }

  /** `charFrequencyMap` and `occurrenceOrder` for the lower-cased text `l`:
      the charted characters that occur, each once, in the order of their
      first occurrence, with their number of occurrences. */
  predicate FirstSeenTable(keys: set<char>, l: string, freq: map<char, nat>, order: seq<char>) {
    CountsTable(keys, l, freq) && OrderTable(l, freq, order)
  }

  /** The map holds the charted characters of `l`, each with its count. */
  predicate CountsTable(keys: set<char>, l: string, freq: map<char, nat>) {
    && (forall c :: c in freq <==> c in keys && c in l)
    && (forall c :: c in freq ==> freq[c] == Occurrences(l, c))
  }

  /** The order lists the keys of the map, each once, by first occurrence in `l`. */
  predicate OrderTable(l: string, freq: map<char, nat>, order: seq<char>) {
    && (forall k :: 0 <= k < |order| ==> order[k] in freq)
    && (forall c :: c in freq ==> c in order)
    && (forall a, b :: 0 <= a < b < |order| ==> order[a] != order[b])
    && (forall a, b :: 0 <= a < b < |order| ==> IndexOf(l, order[a]) < IndexOf(l, order[b]))
  }

  lemma IndexOfExtend(s: string, i: nat, x: char)
    requires i < |s|
    ensures x in s[..i] ==> IndexOf(s[..i + 1], x) == IndexOf(s[..i], x)
    ensures x !in s[..i] && s[i] == x ==> IndexOf(s[..i + 1], x) == i
  {
    var t := s[..i + 1];
    assert forall k :: 0 <= k < i ==> t[k] == s[..i][k];
    if x in s[..i] {
      var j := IndexOf(s[..i], x);
      assert forall k :: 0 <= k < j ==> t[k] == s[..i][..j][k];
      IndexOfUnique(t, x, j);
    } else if s[i] == x {
      IndexOfUnique(t, x, i);
    }
  }

  lemma CountStep(keys: set<char>, text: string, i: nat)
    requires i < |text|
    ensures CharCount(keys, text[..i + 1]) == CharCount(keys, text[..i]) + if ToLower(text[i]) in keys then 1 else 0
  {
    assert text[..i + 1][..i] == text[..i];
  }

  /** How one more character changes counts, membership and first positions. */
  lemma ExtendFacts(l: string, i: nat)
    requires i < |l|
    ensures forall c :: Occurrences(l[..i + 1], c) == Occurrences(l[..i], c) + if l[i] == c then 1 else 0
    ensures forall c :: c in l[..i + 1] <==> c in l[..i] || c == l[i]
    ensures forall c :: c in l[..i] ==> IndexOf(l[..i + 1], c) == IndexOf(l[..i], c) < i
    ensures l[i] !in l[..i] ==> IndexOf(l[..i + 1], l[i]) == i
  {
    assert l[..i + 1] == l[..i] + [l[i]];
    OccurrencesSnoc(l[..i], l[i]);
    forall c | c in l[..i]
      ensures IndexOf(l[..i + 1], c) == IndexOf(l[..i], c)
    {
      IndexOfExtend(l, i, c);
    }
    IndexOfExtend(l, i, l[i]);
  }

  /** A character that is not charted leaves the table as it is. */
  lemma FreqStepSkip(keys: set<char>, l: string, text: string, i: nat, freq: map<char, nat>, order: seq<char>)
    requires i < |l| == |text| && l[i] == ToLower(text[i]) && l[i] !in keys
    requires FirstSeenTable(keys, l[..i], freq, order) && FreqSum(order, freq) == CharCount(keys, text[..i])
    ensures FirstSeenTable(keys, l[..i + 1], freq, order) && FreqSum(order, freq) == CharCount(keys, text[..i + 1])
  {
    ExtendFacts(l, i);
    CountStep(keys, text, i);
    CountsSkip(keys, l, i, freq);
    OrderKeep(l, i, freq, freq, order);
  }

  /** A charted character seen before gains one occurrence. */
  lemma FreqStepAgain(keys: set<char>, l: string, text: string, i: nat, freq: map<char, nat>, order: seq<char>)
    requires i < |l| == |text| && l[i] == ToLower(text[i]) && l[i] in keys && l[i] in freq
    requires FirstSeenTable(keys, l[..i], freq, order) && FreqSum(order, freq) == CharCount(keys, text[..i])
    ensures var f := freq[l[i] := freq[l[i]] + 1];
      FirstSeenTable(keys, l[..i + 1], f, order) && FreqSum(order, f) == CharCount(keys, text[..i + 1])
  {
    FreqStepAgainTable(keys, l, i, freq, order);
    FreqStepAgainSum(keys, l, text, i, freq, order);
  }

  lemma FreqStepAgainSum(keys: set<char>, l: string, text: string, i: nat, freq: map<char, nat>, order: seq<char>)
    requires i < |l| == |text| && l[i] == ToLower(text[i]) && l[i] in keys && l[i] in freq
    requires OrderTable(l[..i], freq, order) && FreqSum(order, freq) == CharCount(keys, text[..i])
    ensures FreqSum(order, freq[l[i] := freq[l[i]] + 1]) == CharCount(keys, text[..i + 1])
  {
    CountStep(keys, text, i);
    FreqSumBump(order, freq, l[i]);
  }

  lemma FreqStepAgainTable(keys: set<char>, l: string, i: nat, freq: map<char, nat>, order: seq<char>)
    requires i < |l| && l[i] in keys && l[i] in freq
    requires FirstSeenTable(keys, l[..i], freq, order)
    ensures FirstSeenTable(keys, l[..i + 1], freq[l[i] := freq[l[i]] + 1], order)
  {
    CountsAgain(keys, l, i, freq);
    OrderKeep(l, i, freq, freq[l[i] := freq[l[i]] + 1], order);
  }

  lemma CountsSkip(keys: set<char>, l: string, i: nat, freq: map<char, nat>)
    requires i < |l| && l[i] !in keys
    requires CountsTable(keys, l[..i], freq)
    ensures CountsTable(keys, l[..i + 1], freq)
  {
    ExtendFacts(l, i);
  }

  lemma CountsAgain(keys: set<char>, l: string, i: nat, freq: map<char, nat>)
    requires i < |l| && l[i] in keys && l[i] in freq
    requires CountsTable(keys, l[..i], freq)
    ensures CountsTable(keys, l[..i + 1], freq[l[i] := freq[l[i]] + 1])
  {
    var l' := l[..i + 1];
    var f := freq[l[i] := freq[l[i]] + 1];
    ExtendFacts(l, i);
    assert forall c :: c in f <==> c in keys && c in l';
    assert forall c :: c in f ==> f[c] == Occurrences(l', c);
  }

  /** A step that keeps the map's domain keeps the order: the positions of
      characters already seen do not move. */
  lemma OrderKeep(l: string, i: nat, freq: map<char, nat>, freq': map<char, nat>, order: seq<char>)
    requires i < |l| && freq'.Keys == freq.Keys
    requires forall c :: c in freq ==> c in l[..i]
    requires OrderTable(l[..i], freq, order)
    ensures OrderTable(l[..i + 1], freq', order)
  {
    ExtendFacts(l, i);
    assert forall k :: 0 <= k < |order| ==> order[k] in l[..i];
  }

  /** A charted character seen for the first time joins the end of the order with count 1. */
  lemma FreqStepNew(keys: set<char>, l: string, text: string, i: nat, freq: map<char, nat>, order: seq<char>)
    requires i < |l| == |text| && l[i] == ToLower(text[i]) && l[i] in keys && l[i] !in freq
    requires FirstSeenTable(keys, l[..i], freq, order) && FreqSum(order, freq) == CharCount(keys, text[..i])
    ensures var f := freq[l[i] := 0][l[i] := 1];
      FirstSeenTable(keys, l[..i + 1], f, order + [l[i]]) && FreqSum(order + [l[i]], f) == CharCount(keys, text[..i + 1])
  {
    FreqStepNewTable(keys, l, i, freq, order);
    FreqStepNewCount(keys, l, text, i, freq, order);
  }

  lemma FreqStepNewCount(keys: set<char>, l: string, text: string, i: nat, freq: map<char, nat>, order: seq<char>)
    requires i < |l| == |text| && l[i] == ToLower(text[i]) && l[i] in keys && l[i] !in freq
    requires OrderTable(l[..i], freq, order) && FreqSum(order, freq) == CharCount(keys, text[..i])
    ensures forall k :: 0 <= k < |order + [l[i]]| ==> (order + [l[i]])[k] in freq[l[i] := 0][l[i] := 1]
    ensures FreqSum(order + [l[i]], freq[l[i] := 0][l[i] := 1]) == CharCount(keys, text[..i + 1])
  {
    FreqStepNewSum(order, freq, l[i]);
    CountStep(keys, text, i);
  }

  lemma FreqStepNewTable(keys: set<char>, l: string, i: nat, freq: map<char, nat>, order: seq<char>)
    requires i < |l| && l[i] in keys && l[i] !in freq
    requires FirstSeenTable(keys, l[..i], freq, order)
    ensures FirstSeenTable(keys, l[..i + 1], freq[l[i] := 0][l[i] := 1], order + [l[i]])
  {
    CountsNew(keys, l, i, freq);
    OrderNew(l, i, freq, order);
  }

  lemma CountsNew(keys: set<char>, l: string, i: nat, freq: map<char, nat>)
    requires i < |l| && l[i] in keys && l[i] !in freq
    requires CountsTable(keys, l[..i], freq)
    ensures l[i] !in l[..i]
    ensures CountsTable(keys, l[..i + 1], freq[l[i] := 0][l[i] := 1])
  {
    var ch := l[i];
    var l' := l[..i + 1];
    var f := freq[ch := 0][ch := 1];
    ExtendFacts(l, i);
    assert ch !in l[..i];
    OccurrencesAbsent(l[..i], ch);
    assert forall c :: c in f <==> c in keys && c in l';
    assert forall c :: c in f ==> f[c] == Occurrences(l', c);
  }

  lemma OrderNew(l: string, i: nat, freq: map<char, nat>, order: seq<char>)
    requires i < |l| && l[i] !in l[..i]
    requires forall c :: c in freq ==> c in l[..i]
    requires OrderTable(l[..i], freq, order)
    ensures OrderTable(l[..i + 1], freq[l[i] := 0][l[i] := 1], order + [l[i]])
  {
    var ch := l[i];
    var l' := l[..i + 1];
    var o := order + [ch];
    var f := freq[ch := 0][ch := 1];
    ExtendFacts(l, i);
    assert forall k :: 0 <= k < |order| ==> o[k] == order[k] && order[k] in l[..i];
    assert forall k :: 0 <= k < |o| ==> o[k] in f;
    assert forall c :: c in f ==> c in o;
    assert forall a, b :: 0 <= a < b < |o| ==> o[a] != o[b];
    forall a, b | 0 <= a < b < |o|
      ensures IndexOf(l', o[a]) < IndexOf(l', o[b])
    {
      if b == |order| {
        assert o[b] == ch;
      }
    }
  }

  lemma FreqStepNewSum(order: seq<char>, freq: map<char, nat>, ch: char)
    requires forall k :: 0 <= k < |order| ==> order[k] in freq
    requires forall a, b :: 0 <= a < b < |order| ==> order[a] != order[b]
    requires ch !in freq
    ensures FreqSum(order + [ch], freq[ch := 0][ch := 1]) == FreqSum(order, freq) + 1
  {
    var o := order + [ch];
    var f0 := freq[ch := 0];
    FreqSumUntouched(order, freq, ch, 0);
    assert o[..|order|] == order;
    assert FreqSum(o, f0) == FreqSum(order, freq);
    FreqSumBump(o, f0, ch);
  }

  /** One pass of the frequency loop. `!charFrequencyMap[char]` holds
      exactly for a character not yet in the map, since no entry is 0. */
  method CountChar(keys: set<char>, l: string, text: string, i: nat, freq0: map<char, nat>, order0: seq<char>)
    returns (freq: map<char, nat>, order: seq<char>)
    requires i < |l| == |text| && l[i] == ToLower(text[i])
    requires FirstSeenTable(keys, l[..i], freq0, order0) && FreqSum(order0, freq0) == CharCount(keys, text[..i])
    ensures FirstSeenTable(keys, l[..i + 1], freq, order) && FreqSum(order, freq) == CharCount(keys, text[..i + 1])
  {
    freq, order := freq0, order0;
    var ch := l[i];
    if ch in keys {
      if ch !in freq {
        FreqStepNew(keys, l, text, i, freq, order);
        freq := freq[ch := 0];
        order := order + [ch];
      } else {
        FreqStepAgain(keys, l, text, i, freq, order);
      }
      freq := freq[ch := freq[ch] + 1];
    } else {
      FreqStepSkip(keys, l, text, i, freq, order);
    }
  }

  /** The frequency loop (gematria.js:256-266). */
  method FrequencyTable(keys: set<char>, text: string) returns (freq: map<char, nat>, order: seq<char>)
    ensures FirstSeenTable(keys, Lower(text), freq, order)
    ensures FreqSum(order, freq) == CharCount(keys, text)
  {
    var lowered := Lower(text);
    freq := map[];
    order := [];
    var i := 0;
    while i < |lowered|
      invariant 0 <= i <= |lowered|
      invariant FirstSeenTable(keys, lowered[..i], freq, order)
      invariant FreqSum(order, freq) == CharCount(keys, text[..i])
    {
      freq, order := CountChar(keys, lowered, text, i, freq, order);
      i := i + 1;
    }
    assert lowered[..i] == lowered;
    assert text[..i] == text;
  }

  // ---- The product column of the frequency table ----

  /** `s.repeat(n)`. */
  function Repeat(s: string, n: nat): (r: string)
    ensures |r| == |s| * n
    ensures forall i :: 0 <= i < |r| ==> r[i] in s
  {
    if n == 0 then [] else Repeat(s, n - 1) + s
  }

  /** The `product` of a `charData` entry for a character of value `v` seen
      `f` times (gematria.js:268-272): `v * f` in the adding systems, and
      `v.toString().repeat(f)` in the Indian one. */
  function Product(v: nat, f: nat, indian: bool): (t: Total)
    ensures OfKind(t, indian)
  {
    if indian then Digits(Repeat(NatToString(v), f)) else Num(v * f)
  }

  /** `f` copies of one total. */
  function Copies(t: Total, f: nat): (ts: seq<Total>)
    ensures |ts| == f && forall i :: 0 <= i < f ==> ts[i] == t
  {
    if f == 0 then [] else Copies(t, f - 1) + [t]
  }

  /** In either kind of system, the product is what `+=` gives when the
      character's value is added `f` times, starting from the initial total:
      multiplication for numbers, repetition for digit strings. */
  lemma ProductIsRepeatedValue(v: nat, f: nat, indian: bool)
    ensures Product(v, f, indian) == Sum(Copies(ValueTotal(v, indian), f), indian)
  {
    if indian {
      RepeatIsRepeatedDigits(NatToString(v), f);
    } else {
      TimesIsRepeatedNum(v, f);
    }
  }

  lemma {:induction false} TimesIsRepeatedNum(v: nat, f: nat)
    ensures Num(v * f) == Sum(Copies(Num(v), f), false)
  {
    if f > 0 {
      assert Copies(Num(v), f)[..f - 1] == Copies(Num(v), f - 1);
      TimesIsRepeatedNum(v, f - 1);
      assert v * f == v * (f - 1) + v;
    }
  }

  lemma {:induction false} RepeatIsRepeatedDigits(d: string, f: nat)
    ensures Digits(Repeat(d, f)) == Sum(Copies(Digits(d), f), true)
  {
    if f > 0 {
      assert Copies(Digits(d), f)[..f - 1] == Copies(Digits(d), f - 1);
      RepeatIsRepeatedDigits(d, f - 1);
    }
  }

  lemma OrderInChart(keys: set<char>, l: string, freq: map<char, nat>, order: seq<char>)
    requires FirstSeenTable(keys, l, freq, order)
    ensures forall k :: 0 <= k < |order| ==> order[k] in keys && order[k] in freq
  {
  }

  /** The products, one per character in order of first occurrence. */
  function Products(chart: map<char, nat>, freq: map<char, nat>, order: seq<char>, indian: bool): (ps: seq<Total>)
    requires forall k :: 0 <= k < |order| ==> order[k] in chart && order[k] in freq
    ensures |ps| == |order|
    ensures forall k :: 0 <= k < |order| ==> ps[k] == Product(chart[order[k]], freq[order[k]], indian)
  {
    seq(|order|, k requires 0 <= k < |order| => Product(chart[order[k]], freq[order[k]], indian))
  }

  // ---- The running cumulative sum ----

  /** `Number(item.sum)`: the value of a total; a digit string is read in base 10. */
  function NumberOf(t: Total): nat {
    match t
    case Num(n) => n
    case Digits(s) => ValueIn(s[..DigitRun(s, 10)], 10)
  }

  /** The values of the first totals added up. */
  function NumSum(ts: seq<Total>): nat {
    if ts == [] then 0 else NumSum(ts[..|ts| - 1]) + NumberOf(ts[|ts| - 1])
  }

  /** The cumulative column: entry `i` adds up the values of sums `0..i`. */
  predicate IsRunningSum(sums: seq<Total>, cumulative: seq<nat>) {
    |cumulative| == |sums| && forall i :: 0 <= i < |sums| ==> cumulative[i] == NumSum(sums[..i + 1])
  }

  /** `runningCumulative` (gematria.js:284-288). */
  method RunningCumulative(sums: seq<Total>) returns (cumulative: seq<nat>)
    ensures IsRunningSum(sums, cumulative)
  {
    var running := 0;
    cumulative := [];
    var i := 0;
    while i < |sums|
      invariant 0 <= i <= |sums|
      invariant running == NumSum(sums[..i])
      invariant |cumulative| == i
      invariant forall k :: 0 <= k < i ==> cumulative[k] == NumSum(sums[..k + 1])
    {
      assert sums[..i + 1][..i] == sums[..i];
      running := running + NumberOf(sums[i]);
      cumulative := cumulative + [running];
      i := i + 1;
    }
  }

  lemma {:induction false} NumSumIsSum(ts: seq<Total>)
    requires forall i :: 0 <= i < |ts| ==> OfKind(ts[i], false)
    ensures NumSum(ts) == Sum(ts, false).n
  {
    if ts != [] {
      NumSumIsSum(ts[..|ts| - 1]);
    }
  }

  /** In the adding systems the last cumulative value is the global total. */
  lemma CumulativeEndsAtGlobal(chart: map<char, nat>, segs: seq<string>)
    ensures NumSum(SegmentSums(chart, segs, false)) == Sum(Totals(chart, AllValid(chart.Keys, segs), false), false).n
  {
    SegmentSumsTotal(chart, segs, false);
    NumSumIsSum(SegmentSums(chart, segs, false));
  }

  // ---- performCalculation ----

  /** What the calculation shows: the global total, the word summation, the
      punctuation summation with its cumulative column, the letter and word
      counts and the frequency table. */
  datatype Report = Report(globalTotal: Total, wordTotals: seq<Total>, segmentSums: seq<Total>,
                           cumulative: seq<nat>, activeLetterCount: nat, wordCount: nat,
                           frequency: map<char, nat>, occurrenceOrder: seq<char>,
                           products: seq<Total>)

  lemma {:induction false} AllValidAppend(keys: set<char>, xs: seq<string>, ys: seq<string>)
    ensures AllValid(keys, xs + ys) == AllValid(keys, xs) + AllValid(keys, ys)
  {
    if xs == [] {
      assert xs + ys == ys;
    } else {
      ConsAppend(xs, ys);
      AllValidAppend(keys, xs[1..], ys);
      var h := ValidWords(keys, Words(xs[0]));
      var a := AllValid(keys, xs[1..]);
      var b := AllValid(keys, ys);
      assert AllValid(keys, xs + ys) == h + AllValid(keys, xs[1..] + ys);
      assert AllValid(keys, xs) == h + a;
      AppendAssoc(h, a, b);
    }
  }

  lemma {:induction false} SegmentSumsAppend(chart: map<char, nat>, xs: seq<string>, ys: seq<string>, indian: bool)
    ensures SegmentSums(chart, xs + ys, indian) == SegmentSums(chart, xs, indian) + SegmentSums(chart, ys, indian)
  {
    if xs == [] {
      assert xs + ys == ys;
    } else {
      ConsAppend(xs, ys);
      SegmentSumsAppend(chart, xs[1..], ys, indian);
      var h := SegmentEntry(chart, xs[0], indian);
      var a := SegmentSums(chart, xs[1..], indian);
      var b := SegmentSums(chart, ys, indian);
      assert SegmentSums(chart, xs + ys, indian) == h + SegmentSums(chart, xs[1..] + ys, indian);
      assert SegmentSums(chart, xs, indian) == h + a;
      AppendAssoc(h, a, b);
    }
  }

  lemma SegmentStep(chart: map<char, nat>, segs: seq<string>, i: nat, indian: bool)
    requires i < |segs|
    ensures AllValid(chart.Keys, segs[..i + 1]) == AllValid(chart.Keys, segs[..i]) + ValidWords(chart.Keys, Words(segs[i]))
    ensures SegmentSums(chart, segs[..i + 1], indian) == SegmentSums(chart, segs[..i], indian) + SegmentEntry(chart, segs[i], indian)
  {
    PrefixSnoc(segs, i);
    AllValidAppend(chart.Keys, segs[..i], [segs[i]]);
    AllValidOne(chart.Keys, segs[i]);
    SegmentSumsAppend(chart, segs[..i], [segs[i]], indian);
    SegmentSumsOne(chart, segs[i], indian);
  }

  lemma AllValidOne(keys: set<char>, seg: string)
    ensures AllValid(keys, [seg]) == ValidWords(keys, Words(seg))
  {
    assert [seg][1..] == [];
  }

  lemma SegmentSumsOne(chart: map<char, nat>, seg: string, indian: bool)
    ensures SegmentSums(chart, [seg], indian) == SegmentEntry(chart, seg, indian)
  {
    assert [seg][1..] == [];
  }

  /** What the segment loop has built after the first `i` segments. */
  predicate SegmentsDone(chart: map<char, nat>, segs: seq<string>, i: nat, indian: bool,
                         global: Total, wordTotals: seq<Total>, segmentSums: seq<Total>, active: nat)
    requires i <= |segs|
  {
    && wordTotals == Totals(chart, AllValid(chart.Keys, segs[..i]), indian)
    && global == Sum(wordTotals, indian)
    && segmentSums == SegmentSums(chart, segs[..i], indian)
    && active == Letters(chart.Keys, AllValid(chart.Keys, segs[..i]))
  }

  /** One pass of the segment loop: the words of segment `i` are scanned
      and its sum is listed when one of them is valid. */
  method AddSegment(chart: map<char, nat>, segs: seq<string>, i: nat, indian: bool,
                    global0: Total, wordTotals0: seq<Total>, segmentSums0: seq<Total>, active0: nat)
    returns (global: Total, wordTotals: seq<Total>, segmentSums: seq<Total>, active: nat)
    requires i < |segs|
    requires SegmentsDone(chart, segs, i, indian, global0, wordTotals0, segmentSums0, active0)
    ensures SegmentsDone(chart, segs, i + 1, indian, global, wordTotals, segmentSums, active)
  {
    var prefix := AllValid(chart.Keys, segs[..i]);
    var v := ValidWords(chart.Keys, Words(segs[i]));
    var segmentSum, segmentTotals;
    segmentSum, segmentTotals, global, active := ProcessWords(chart, Words(segs[i]), indian, global0, active0);
    SegmentStep(chart, segs, i, indian);
    TotalsAppend(chart, prefix, v, indian);
    SumAppend(wordTotals0, segmentTotals, indian);
    LettersAppend(chart.Keys, prefix, v);
    wordTotals := wordTotals0 + segmentTotals;
    segmentSums := segmentSums0;
    if |segmentTotals| > 0 {
      segmentSums := segmentSums + [segmentSum];
    }
  }

  /** The loop over the segments (gematria.js:177-237): the word summation, the
      global total, the punctuation summation and the letter count. */
  method SumSegments(chart: map<char, nat>, segs: seq<string>, indian: bool)
    returns (global: Total, wordTotals: seq<Total>, segmentSums: seq<Total>, active: nat)
    ensures wordTotals == Totals(chart, AllValid(chart.Keys, segs), indian)
    ensures global == Sum(wordTotals, indian)
    ensures segmentSums == SegmentSums(chart, segs, indian)
    ensures active == Letters(chart.Keys, AllValid(chart.Keys, segs))
  {
    global := Zero(indian);
    wordTotals := [];
    segmentSums := [];
    active := 0;
    var i := 0;
    while i < |segs|
      invariant 0 <= i <= |segs|
      invariant SegmentsDone(chart, segs, i, indian, global, wordTotals, segmentSums, active)
    {
      global, wordTotals, segmentSums, active := AddSegment(chart, segs, i, indian, global, wordTotals, segmentSums, active);
      i := i + 1;
    }
    assert segs[..i] == segs;
  }

  /** `performCalculation`: `None` is the "Please enter text" error. */
  method PerformCalculation(rawText: string, system: System) returns (r: Option<Report>)
    ensures r.None? <==> AllSpace(rawText)
    ensures r.Some? ==>
      var chart := Chart(system);
      var indian := system == Indian;
      var segs := Segments(rawText);
      && r.value.wordTotals == Totals(chart, AllValid(chart.Keys, segs), indian)
      && r.value.globalTotal == Sum(r.value.wordTotals, indian)
      && r.value.segmentSums == SegmentSums(chart, segs, indian)
      && IsRunningSum(r.value.segmentSums, r.value.cumulative)
      && r.value.activeLetterCount == Letters(chart.Keys, AllValid(chart.Keys, segs))
      && r.value.wordCount == |Words(rawText)|
      && FirstSeenTable(chart.Keys, Lower(rawText), r.value.frequency, r.value.occurrenceOrder)
      && FreqSum(r.value.occurrenceOrder, r.value.frequency) == CharCount(chart.Keys, rawText)
      && |r.value.products| == |r.value.occurrenceOrder|
      && (forall k :: 0 <= k < |r.value.occurrenceOrder| ==>
            var c := r.value.occurrenceOrder[k];
            c in chart && c in r.value.frequency
            && r.value.products[k] == Product(chart[c], r.value.frequency[c], indian))
  {
    var blank := IsBlank(rawText);
    if blank {
      return None;
    }
    var chart := Chart(system);
    var indian := system == Indian;
    var global, wordTotals, segmentSums, active := SumSegments(chart, Segments(rawText), indian);
    var freq, order := FrequencyTable(chart.Keys, rawText);
    var cumulative := RunningCumulative(segmentSums);
    OrderInChart(chart.Keys, Lower(rawText), freq, order);
    var products := Products(chart, freq, order, indian);
    r := Some(Report(global, wordTotals, segmentSums, cumulative, active, |Words(rawText)|, freq, order, products));
  }

  /** For every shipped chart, the figures `PerformCalculation` reports agree
      with the text taken as a whole: the global total is the total of all
      charted characters, the letter count is their number (and so the sum
      of the frequencies), and in the adding systems the last cumulative
      value is the global total. */
  lemma ReportAgreesWithText(system: System, rawText: string)
    ensures var chart := Chart(system);
      var indian := system == Indian;
      var words := AllValid(chart.Keys, Segments(rawText));
      && Sum(Totals(chart, words, indian), indian) == CharTotal(chart, rawText, indian)
      && Letters(chart.Keys, words) == CharCount(chart.Keys, rawText)
      && (!indian ==> NumSum(SegmentSums(chart, Segments(rawText), false)) == CharTotal(chart, rawText, false).n)
  {
    var chart := Chart(system);
    ChartsSeparatorFree(system);
    GlobalIsTextTotal(chart, rawText, system == Indian);
    LettersAreTextLetters(chart.Keys, rawText);
    GlobalIsTextTotal(chart, rawText, false);
    CumulativeEndsAtGlobal(chart, Segments(rawText));
  }
}
