/** The JavaScript number behaviour the tracker depends on: parseInt,
    number-to-text conversion, truthiness, comparisons with NaN, and the
    reduce / Math.round / Math.max / Math.min aggregates over lists of
    numbers. Numbers are unbounded integers or NaN. */
module JsNumbers {
  import opened JsStrings

  datatype Option<T> = None | Some(value: T)

  /** A number as parseInt produces it: an integer, or NaN when no digits
      were found. */
  datatype Num = Int(n: int) | NaN

  /** JavaScript truthiness of a number: 0 and NaN are falsy. */
  predicate Truthy(x: Num) {
    x.Int? && x.n != 0
  }

  /** The JavaScript comparison `x < k`: every comparison with NaN is false. */
  predicate Below(x: Num, k: int) {
    x.Int? && x.n < k
  }

  predicate IsDigit(c: char) {
    '0' <= c <= '9'
  }

  predicate AllDigits(s: string) {
    forall i :: 0 <= i < |s| ==> IsDigit(s[i])
  }

  function DigitValue(c: char): nat
    requires IsDigit(c)
  {
    (c as int) - ('0' as int)
  }

  function DigitChar(d: nat): (c: char)
    requires d < 10
    ensures IsDigit(c) && DigitValue(c) == d
  {
    (('0' as int) + d) as char
  }

  /** The longest prefix of `s` made of decimal digits. */
  function DigitPrefix(s: string): (d: string)
    ensures |d| <= |s| && d == s[..|d|]
    ensures AllDigits(d)
    ensures |d| == |s| || !IsDigit(s[|d|])
  {
    if |s| > 0 && IsDigit(s[0]) then [s[0]] + DigitPrefix(s[1..]) else ""
  }

  /** The value of a decimal digit string, most significant digit first. */
  function DigitsValue(d: string): nat
    requires AllDigits(d)
  {
    if |d| == 0 then 0 else DigitsValue(d[..|d| - 1]) * 10 + DigitValue(d[|d| - 1])
  }

  /** parseInt(s) in radix 10: leading white space is skipped, one optional
      sign is read, then the longest run of decimal digits; whatever follows
      is ignored, and no digits at all gives NaN. */
  function ParseInt(s: string): (r: Num)
    ensures (forall i :: 0 <= i < |s| ==> IsSpace(s[i])) ==> r.NaN?
    ensures |s| > 0 && IsDigit(s[0]) ==> r.Int? && r.n >= 0
  {
    if |s| > 0 && IsSpace(s[0]) then
      assert forall i :: 0 <= i < |s[1..]| ==> s[1..][i] == s[i + 1];
      ParseInt(s[1..])
    else ParseSigned(s)
  }

  /** parseInt after the white space: an optional sign, then digits. */
  function ParseSigned(t: string): Num {
    var signed := |t| > 0 && (t[0] == '-' || t[0] == '+');
    var body := if signed then t[1..] else t;
    var d := DigitPrefix(body);
    var v: int := if |d| == 0 then 0 else DigitsValue(d);
    if |d| == 0 then NaN
    else if signed && t[0] == '-' then Int(-v)
    else Int(v)
  }

  /** Skipping white space one character at a time is trimming the start. */
  lemma {:induction false} ParseIntTrimsStart(s: string)
    ensures ParseInt(s) == ParseSigned(TrimStart(s))
  {
    if |s| > 0 && IsSpace(s[0]) {
      ParseIntTrimsStart(s[1..]);
    }
  }

  /** The decimal digits of a natural number, without leading zeros. */
  function NatToString(m: nat): (s: string)
    ensures |s| > 0 && AllDigits(s)
    ensures DigitsValue(s) == m
  {
    if m < 10 then [DigitChar(m)]
    else
      var s := NatToString(m / 10) + [DigitChar(m % 10)];
      assert s[..|s| - 1] == NatToString(m / 10);
      s
  }

  /** How a template literal shows an integer: a minus sign for negatives,
      then the decimal digits. */
  function IntToString(n: int): string {
    if n < 0 then "-" + NatToString(-n) else NatToString(n)
  }

  /** How a template literal shows a number: NaN reads "NaN". */
  function NumToString(x: Num): string {
    match x
    case Int(n) => IntToString(n)
    case NaN => "NaN"
  }

  /** Number text has no field or line separators and no white space at
      either end. */
  lemma NumTextIsPlain(x: Num)
    ensures var s := NumToString(x);
      && |s| > 0 && ',' !in s && '\n' !in s
      && !IsSpace(s[0]) && !IsSpace(s[|s| - 1])
  {
    var s := NumToString(x);
    if x.Int? {
      var m := if x.n < 0 then -x.n else x.n;
      var d := NatToString(m);
      assert s == d || s == "-" + d;
      assert forall i :: 0 <= i < |s| ==> s[i] == '-' || IsDigit(s[i]);
    }
  }

  /** The digit prefix of a digit string followed by non-digit text is
      that digit string. */
  lemma {:induction false} DigitPrefixOfDigits(d: string, rest: string)
    requires AllDigits(d)
    requires |rest| == 0 || !IsDigit(rest[0])
    ensures DigitPrefix(d + rest) == d
  {
    if |d| > 0 {
      DigitPrefixOfDigits(d[1..], rest);
      assert (d + rest)[1..] == d[1..] + rest;
      assert d == [d[0]] + d[1..];
    } else {
      assert d + rest == rest;
    }
  }

  lemma SignOrDigitIsNotSpace(c: char)
    requires c == '-' || c == 'N' || IsDigit(c)
    ensures !IsSpace(c)
  {
  }

  /** parseInt reads a digit string followed by non-digit text as the
      digits' value. */
  lemma ParseIntOfDigits(d: string, rest: string)
    requires |d| > 0 && AllDigits(d)
    requires |rest| == 0 || !IsDigit(rest[0])
    ensures ParseInt(d + rest) == Int(DigitsValue(d))
  {
    var s := d + rest;
    assert s[0] == d[0];
    SignOrDigitIsNotSpace(s[0]);
    DigitPrefixOfDigits(d, rest);
  }

  /** parseInt reads a minus sign, a digit string and non-digit text as the
      negated value of the digits. */
  lemma ParseIntOfNegatedDigits(d: string, rest: string)
    requires |d| > 0 && AllDigits(d)
    requires |rest| == 0 || !IsDigit(rest[0])
    ensures ParseInt("-" + (d + rest)) == Int(-(DigitsValue(d) as int))
  {
    var s := "-" + (d + rest);
    assert s[0] == '-' && s[1] == d[0];
    assert s[1..] == d + rest;
    assert DigitPrefix(s[1..]) == d by { DigitPrefixOfDigits(d, rest); }
    ParseIntOfMinus(s);
  }

  lemma SignAssociates(d: string, rest: string)
    ensures "-" + d + rest == "-" + (d + rest)
  {
  }

  /** parseInt of a minus sign and digits negates the value of the digit
      prefix after the sign. */
  lemma ParseIntOfMinus(s: string)
    requires |s| > 1 && s[0] == '-' && IsDigit(s[1])
    ensures DigitPrefix(s[1..]) != ""
    ensures ParseInt(s) == Int(-(DigitsValue(DigitPrefix(s[1..])) as int))
  {
    SignOrDigitIsNotSpace(s[0]);
  }

  /** parseInt reads back the integer a template literal wrote, whatever
      non-digit text follows it. */
  lemma ParseIntReadsPrefix(n: int, rest: string)
    requires |rest| == 0 || !IsDigit(rest[0])
    ensures ParseInt(IntToString(n) + rest) == Int(n)
  {
    if n < 0 {
      ParseIntOfNegatedDigits(NatToString(-n), rest);
      SignAssociates(NatToString(-n), rest);
    } else {
      ParseIntOfDigits(NatToString(n), rest);
    }
  }

  /** parseInt inverts number-to-text, NaN included. */
  lemma ParseIntRoundTrip(x: Num)
    ensures ParseInt(NumToString(x)) == x
  {
    if x.Int? {
      ParseIntReadsPrefix(x.n, "");
      assert IntToString(x.n) + "" == IntToString(x.n);
    } else {
      var s := "NaN";
      SignOrDigitIsNotSpace(s[0]);
      assert DigitPrefix(s) == "";
    }
  }

  // ---------------------------------------------------------------------
  // Aggregates over lists of numbers

  predicate AllInt(xs: seq<Num>) {
    forall i :: 0 <= i < |xs| ==> xs[i].Int?
  }

  /** JavaScript `+` on numbers: NaN absorbs. */
  function Add(a: Num, b: Num): Num {
    if a.Int? && b.Int? then Int(a.n + b.n) else NaN
  }

  /** xs.reduce((a, b) => a + b, 0). */
  function SumNum(xs: seq<Num>): (r: Num)
    ensures r.Int? <==> AllInt(xs)
  {
    if |xs| == 0 then Int(0) else Add(xs[0], SumNum(xs[1..]))
  }

  /** Math.round(s / n) for a positive count `n`: the integer nearest to
      s / n, a half rounded upwards. */
  function RoundDiv(s: int, n: int): (r: int)
    requires n > 0
    ensures n * (2 * r - 1) <= 2 * s < n * (2 * r + 1)
  {
    var q := (2 * s + n) / (2 * n);
    var m := (2 * s + n) % (2 * n);
    assert 2 * s + n == 2 * n * q + m && 0 <= m < 2 * n;
    q
  }

  /** `r` is what Math.round(xs.reduce(+) / xs.length) gives for a
      non-empty list: NaN when some value is NaN, otherwise the integer
      nearest the mean, a half rounded upwards. */
  predicate IsRoundedMean(r: Num, xs: seq<Num>) {
    && |xs| > 0
    && if AllInt(xs) then
         r.Int? && |xs| * (2 * r.n - 1) <= 2 * SumNum(xs).n < |xs| * (2 * r.n + 1)
       else r.NaN?
  }

  /** `r` is what Math.max(...xs) gives: NaN when some value is NaN,
      otherwise a value of the list that no value exceeds. */
  predicate IsMaximum(r: Num, xs: seq<Num>) {
    if AllInt(xs) then r.Int? && r in xs && forall i :: 0 <= i < |xs| ==> xs[i].n <= r.n
    else r.NaN?
  }

  /** `r` is what Math.min(...xs) gives. */
  predicate IsMinimum(r: Num, xs: seq<Num>) {
    if AllInt(xs) then r.Int? && r in xs && forall i :: 0 <= i < |xs| ==> r.n <= xs[i].n
    else r.NaN?
  }

  /** Math.round(xs.reduce(+) / xs.length) for a non-empty list. */
  function MeanNum(xs: seq<Num>): (r: Num)
    requires |xs| > 0
    ensures r.Int? <==> AllInt(xs)
    ensures IsRoundedMean(r, xs)
  {
    var sum := SumNum(xs);
    if sum.NaN? then NaN
    else
      var n, q := |xs|, RoundDiv(sum.n, |xs|);
      assert n * (2 * q - 1) <= 2 * sum.n < n * (2 * q + 1);
      Int(q)
  }

  /** Math.max(...xs) for a non-empty list: NaN when any element is NaN,
      otherwise the largest element. */
  function MaxNum(xs: seq<Num>): (r: Num)
    requires |xs| > 0
    ensures r.Int? <==> AllInt(xs)
    ensures r.Int? ==> r in xs && forall i :: 0 <= i < |xs| ==> xs[i].n <= r.n
    ensures IsMaximum(r, xs)
  {
    if |xs| == 1 then xs[0]
    else
      var m := MaxNum(xs[1..]);
      if xs[0].NaN? || m.NaN? then NaN
      else if xs[0].n >= m.n then xs[0] else m
  }

  /** Math.min(...xs) for a non-empty list: NaN when any element is NaN,
      otherwise the smallest element. */
  function MinNum(xs: seq<Num>): (r: Num)
    requires |xs| > 0
    ensures r.Int? <==> AllInt(xs)
    ensures r.Int? ==> r in xs && forall i :: 0 <= i < |xs| ==> r.n <= xs[i].n
    ensures IsMinimum(r, xs)
  {
    if |xs| == 1 then xs[0]
    else
      var m := MinNum(xs[1..]);
      if xs[0].NaN? || m.NaN? then NaN
      else if xs[0].n <= m.n then xs[0] else m
  }

  lemma {:induction false} SumBounds(xs: seq<Num>, lo: int, hi: int)
    requires AllInt(xs)
    requires forall i :: 0 <= i < |xs| ==> lo <= xs[i].n <= hi
    ensures |xs| * lo <= SumNum(xs).n <= |xs| * hi
  {
    if |xs| > 0 {
      SumBounds(xs[1..], lo, hi);
      assert SumNum(xs).n == xs[0].n + SumNum(xs[1..]).n;
    }
  }

  lemma MulMonotone(n: int, a: int, b: int)
    requires n >= 0 && a <= b
    ensures n * a <= n * b
  {
    assert n * b - n * a == n * (b - a);
  }

  /** A rounded quotient stays within bounds the dividend is known to lie
      between. */
  lemma RoundDivWithin(s: int, n: int, lo: int, hi: int)
    requires n > 0 && n * lo <= s <= n * hi
    ensures lo <= RoundDiv(s, n) <= hi
  {
    var r := RoundDiv(s, n);
    if r < lo {
      MulMonotone(n, 2 * r + 1, 2 * lo - 1);
      assert false;
    }
    if r > hi {
      MulMonotone(n, 2 * hi + 1, 2 * r - 1);
      assert false;
    }
  }

  /** The rounding condition pins down one integer: Math.round has a single
      possible result. */
  lemma RoundDivUnique(s: int, n: int, a: int, b: int)
    requires n > 0
    requires n * (2 * a - 1) <= 2 * s < n * (2 * a + 1)
    requires n * (2 * b - 1) <= 2 * s < n * (2 * b + 1)
    ensures a == b
  {
    if a < b {
      MulMonotone(n, 2 * a + 1, 2 * b - 1);
      assert false;
    }
    if b < a {
      MulMonotone(n, 2 * b + 1, 2 * a - 1);
      assert false;
    }
  }

  /** A list has one rounded mean, and MeanNum computes it. */
  lemma RoundedMeanIsUnique(r: Num, xs: seq<Num>)
    requires IsRoundedMean(r, xs)
    ensures r == MeanNum(xs)
  {
    if AllInt(xs) {
      RoundDivUnique(SumNum(xs).n, |xs|, r.n, MeanNum(xs).n);
    }
  }

  /** The rounded mean of a list of integers lies between its minimum and
      its maximum. */
  lemma MeanWithinRange(xs: seq<Num>)
    requires |xs| > 0 && AllInt(xs)
    ensures MinNum(xs).n <= MeanNum(xs).n <= MaxNum(xs).n
  {
    var lo, hi := MinNum(xs).n, MaxNum(xs).n;
    SumBounds(xs, lo, hi);
    RoundDivWithin(SumNum(xs).n, |xs|, lo, hi);
  }
}
