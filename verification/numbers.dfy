/**
 * Number reading as the pages do it: `parseInt(x) || 0` for roster counts and
 * the first match of `/\d+(\.\d+)?/` read as an exact decimal for receipts.
 */
module Numbers {
  import opened Wrappers
  import opened Text
  import opened Seqs

  predicate IsHexDigit(c: char) {
    IsDecDigit(c) || 'a' <= c <= 'f' || 'A' <= c <= 'F'
  }

  /** A digit of radix 10 or of radix 16 (the only radices `parseInt` picks by itself). */
  predicate IsDigitIn(c: char, hex: bool) {
    if hex then IsHexDigit(c) else IsDecDigit(c)
  }

  function DigitValue(c: char): (v: nat)
    requires IsHexDigit(c)
    ensures IsDecDigit(c) ==> v < 10
    ensures v < 16
  {
    if IsDecDigit(c) then c as int - '0' as int
    else if 'a' <= c <= 'f' then c as int - 'a' as int + 10
    else c as int - 'A' as int + 10
  }

  /** The longest prefix of `s` made of digits. */
  function LeadingDigits(s: string, hex: bool): (r: string)
    ensures |r| <= |s| && r == s[..|r|]
    ensures forall i :: 0 <= i < |r| ==> IsDigitIn(r[i], hex)
    ensures |r| < |s| ==> !IsDigitIn(s[|r|], hex)
  {
    if s != [] && IsDigitIn(s[0], hex) then [s[0]] + LeadingDigits(s[1..], hex) else []
  }

  /** The value of a numeral, most significant digit first. */
  function DigitsValue(ds: string, hex: bool): nat
    requires forall i :: 0 <= i < |ds| ==> IsDigitIn(ds[i], hex)
  {
    if ds == [] then 0
    else
      assert IsDigitIn(ds[|ds| - 1], hex);
      DigitsValue(ds[..|ds| - 1], hex) * (if hex then 16 else 10) + DigitValue(ds[|ds| - 1])
  }

  /**
   * `parseInt` after the sign: radix 16 after `0x` or `0X`, else radix 10, then
   * the longest run of digits; no digits at all is NaN (None).
   */
  function UnsignedValue(u: string): (r: Option<nat>)
    ensures r.Some? ==> u != [] && IsDecDigit(u[0])
    ensures |u| >= 2 && u[0] == '0' && (u[1] == 'x' || u[1] == 'X') && (|u| == 2 || !IsHexDigit(u[2])) ==> r.None?
  {
    var hex := |u| >= 2 && u[0] == '0' && (u[1] == 'x' || u[1] == 'X');
    var ds := LeadingDigits(if hex then u[2..] else u, hex);
    if ds == [] then None else Some(DigitsValue(ds, hex))
  }

  /**
   * `parseInt(s) || 0`: skip leading whitespace, take an optional sign, read
   * the unsigned part; NaN becomes 0 through `|| 0` (and so does -0).
   */
  function ParseIntOrZero(s: string): (r: int)
    ensures r != 0 ==> var t := TrimStart(s);
                       |t| >= 1 && (IsDecDigit(t[0]) || (|t| >= 2 && (t[0] == '-' || t[0] == '+') && IsDecDigit(t[1])))
    ensures r < 0 ==> TrimStart(s)[0] == '-'
  {
    var t := TrimStart(s);
    var negative := t != [] && t[0] == '-';
    var u := if t != [] && (t[0] == '-' || t[0] == '+') then t[1..] else t;
    match UnsignedValue(u)
    case None => 0
    case Some(v) => if negative then -(v as int) else v
  }

  lemma {:induction false} LeadingDigitsOfNumeral(p: string, rest: string, hex: bool)
    requires forall i :: 0 <= i < |p| ==> IsDigitIn(p[i], hex)
    requires rest == [] || !IsDigitIn(rest[0], hex)
    ensures LeadingDigits(p + rest, hex) == p
  {
    if p != [] {
      assert (p + rest)[1..] == p[1..] + rest;
      LeadingDigitsOfNumeral(p[1..], rest, hex);
    } else if rest != [] {
      assert (p + rest)[0] == rest[0];
    }
  }

  lemma {:induction false} NatToDecimalValue(n: nat)
    ensures DigitsValue(NatToDecimal(n), false) == n
  {
    var r := NatToDecimal(n);
    if n >= 10 {
      NatToDecimalValue(n / 10);
      assert r[..|r| - 1] == NatToDecimal(n / 10);
    }
  }

  /** Different integers print differently: an integer can be read back from its numeral. */
  lemma IntToDecimalInjective(a: int, b: int)
    requires IntToDecimal(a) == IntToDecimal(b)
    ensures a == b
  {
    if a < 0 && b < 0 {
      var na, nb: nat := -a, -b;
      assert IntToDecimal(a) == "-" + NatToDecimal(na);
      assert IntToDecimal(b) == "-" + NatToDecimal(nb);
      DropCommonPrefix("-", NatToDecimal(na), NatToDecimal(nb));
      NatToDecimalValue(na);
      NatToDecimalValue(nb);
    } else if a >= 0 && b >= 0 {
      NatToDecimalValue(a);
      NatToDecimalValue(b);
    }
  }

  /** The unsigned part of a decimal numeral followed by a non-continuing tail. */
  lemma UnsignedValueOfNumeral(m: nat, tail: string)
    requires tail == [] || (!IsDecDigit(tail[0]) && (m != 0 || (tail[0] != 'x' && tail[0] != 'X')))
    ensures UnsignedValue(NatToDecimal(m) + tail) == Some(m)
  {
    var p := NatToDecimal(m);
    var u := p + tail;
    assert u[0] == p[0];
    if p[0] == '0' {
      assert |p| == 1 && m == 0;
      assert |u| >= 2 ==> u[1] == tail[0];
    }
    assert !(|u| >= 2 && u[0] == '0' && (u[1] == 'x' || u[1] == 'X'));
    if tail != [] {
      assert !IsDigitIn(tail[0], false);
    }
    LeadingDigitsOfNumeral(p, tail, false);
    NatToDecimalValue(m);
  }

  /** After `0x` or `0X`, `parseInt` reads the run of hexadecimal digits in radix 16. */
  lemma UnsignedValueOfHex(x: char, ds: string, tail: string)
    requires x == 'x' || x == 'X'
    requires ds != [] && forall i :: 0 <= i < |ds| ==> IsHexDigit(ds[i])
    requires tail == [] || !IsHexDigit(tail[0])
    ensures UnsignedValue(['0', x] + ds + tail) == Some(DigitsValue(ds, true))
  {
    var u := ['0', x] + (ds + tail);
    assert ['0', x] + ds + tail == u;
    assert |u| >= 2 && u[0] == '0' && u[1] == x;
    assert u[2..] == ds + tail;
    assert forall i :: 0 <= i < |ds| ==> IsDigitIn(ds[i], true);
    assert tail == [] || !IsDigitIn(tail[0], true);
    LeadingDigitsOfNumeral(ds, tail, true);
  }

  /**
   * A cell made of optional whitespace, the decimal numeral of an integer and
   * a tail that does not continue the numeral reads back as that integer.
   */
  lemma ParseIntReadsLeadingInteger(ws: string, n: int, tail: string)
    requires forall i :: 0 <= i < |ws| ==> IsJsWhitespace(ws[i])
    requires tail == [] || (!IsDecDigit(tail[0]) && (n != 0 || (tail[0] != 'x' && tail[0] != 'X')))
    ensures ParseIntOrZero(ws + IntToDecimal(n) + tail) == n
  {
    var t := IntToDecimal(n) + tail;
    assert ws + IntToDecimal(n) + tail == ws + t;
    NumeralStartsWithoutWhitespace(n, tail);
    LeadingWhitespaceOfPadded(ws, t);
    LeadingWhitespaceOfPadded([], t);
    assert [] + t == t;
    ParseIntSkipsWhitespace(ws + t, t);
    ParseIntOfNumeralText(n, tail);
  }

  /** `parseInt` only sees what follows the leading whitespace. */
  lemma ParseIntSkipsWhitespace(s: string, t: string)
    requires TrimStart(s) == TrimStart(t)
    ensures ParseIntOrZero(s) == ParseIntOrZero(t)
  {
  }

  lemma NumeralStartsWithoutWhitespace(n: int, tail: string)
    ensures !IsJsWhitespace((IntToDecimal(n) + tail)[0])
  {
    assert (IntToDecimal(n) + tail)[0] == IntToDecimal(n)[0];
    if n >= 0 {
      assert IsDecDigit(NatToDecimal(n)[0]);
    }
  }

  /** The numeral of an integer followed by a non-continuing tail, with nothing before it. */
  lemma ParseIntOfNumeralText(n: int, tail: string)
    requires tail == [] || (!IsDecDigit(tail[0]) && (n != 0 || (tail[0] != 'x' && tail[0] != 'X')))
    ensures ParseIntOrZero(IntToDecimal(n) + tail) == n
  {
    var t := IntToDecimal(n) + tail;
    NumeralStartsWithoutWhitespace(n, tail);
    assert TrimStart(t) == t;
    if n < 0 {
      var m: nat := -n;
      assert t == "-" + (NatToDecimal(m) + tail);
      assert t[1..] == NatToDecimal(m) + tail;
      UnsignedValueOfNumeral(m, tail);
    } else {
      assert t[0] == NatToDecimal(n)[0];
      UnsignedValueOfNumeral(n, tail);
    }
  }

  lemma {:induction false} LeadingWhitespaceOfPadded(ws: string, t: string)
    requires forall i :: 0 <= i < |ws| ==> IsJsWhitespace(ws[i])
    requires t == [] || !IsJsWhitespace(t[0])
    ensures LeadingWhitespace(ws + t) == |ws|
  {
    if ws != [] {
      assert (ws + t)[1..] == ws[1..] + t;
      LeadingWhitespaceOfPadded(ws[1..], t);
    } else if t != [] {
      assert (ws + t)[0] == t[0];
    }
  }

  /** The value of two numerals written one after the other. */
  lemma {:induction false} DigitsValueAppend(a: string, b: string)
    requires AllDecDigits(a) && AllDecDigits(b)
    ensures AllDecDigits(a + b)
    ensures DigitsValue(a + b, false) == DigitsValue(a, false) * Pow10(|b|) + DigitsValue(b, false)
  {
    if b != [] {
      var b' := b[..|b| - 1];
      assert (a + b)[..|a + b| - 1] == a + b';
      assert (a + b)[|a + b| - 1] == b[|b| - 1];
      DigitsValueAppend(a, b');
      ShiftOneDigit(DigitsValue(a, false), Pow10(|b'|), DigitsValue(b', false), DigitValue(b[|b| - 1]));
    } else {
      assert a + b == a;
    }
  }

  lemma ShiftOneDigit(v: int, scale: int, w: int, d: int)
    ensures (v * scale + w) * 10 + d == v * (10 * scale) + (w * 10 + d)
  {
  }

  /** Leading zeros add nothing to the value of a numeral. */
  lemma PaddedNumeralValue(zeros: nat, m: nat)
    ensures AllDecDigits(Repeat('0', zeros) + NatToDecimal(m))
    ensures DigitsValue(Repeat('0', zeros) + NatToDecimal(m), false) == m
  {
    var z, p := Repeat('0', zeros), NatToDecimal(m);
    assert AllDecDigits(z);
    ZeroValueIffZeroDigits(z);
    assert DigitsValue(z, false) == 0;
    DigitsValueAppend(z, p);
    assert DigitsValue(z, false) * Pow10(|p|) == 0;
    NatToDecimalValue(m);
  }

  /** `parseInt` reads a numeral with leading zeros in radix 10, at its value. */
  lemma UnsignedValueOfPadded(zeros: nat, m: nat, tail: string)
    requires zeros >= 1
    requires tail == [] || !IsDecDigit(tail[0])
    ensures UnsignedValue(Repeat('0', zeros) + NatToDecimal(m) + tail) == Some(m)
  {
    var ds := Repeat('0', zeros) + NatToDecimal(m);
    var u := ds + tail;
    PaddedNumeralValue(zeros, m);
    assert u[0] == '0';
    assert |u| >= 2 ==> IsDecDigit(u[1]) by {
      assert |u| >= 2 ==> u[1] == ds[1];
    }
    if tail != [] {
      assert !IsDigitIn(tail[0], false);
    }
    LeadingDigitsOfNumeral(ds, tail, false);
  }

  /**
   * A cell of optional whitespace, an optional sign, a numeral with leading
   * zeros and a tail that does not continue it reads as the numeral's value,
   * negated after a minus sign.
   */
  lemma ParseIntOfPaddedNumeral(ws: string, sign: string, zeros: nat, m: nat, tail: string)
    requires forall i :: 0 <= i < |ws| ==> IsJsWhitespace(ws[i])
    requires sign == "" || sign == "+" || sign == "-"
    requires zeros >= 1
    requires tail == [] || !IsDecDigit(tail[0])
    ensures ParseIntOrZero(ws + sign + Repeat('0', zeros) + NatToDecimal(m) + tail) == if sign == "-" then -(m as int) else m
  {
    var t := sign + (Repeat('0', zeros) + NatToDecimal(m) + tail);
    Regroup(ws, sign, Repeat('0', zeros), NatToDecimal(m), tail);
    PaddedStartsWithoutWhitespace(sign, zeros, m, tail);
    ParseIntAfterWhitespace(ws, t);
    ParseIntOfSignedPadded(sign, zeros, m, tail);
  }

  lemma Regroup(a: string, b: string, c: string, d: string, e: string)
    ensures a + b + c + d + e == a + (b + (c + d + e))
  {
  }

  lemma PaddedStartsWithoutWhitespace(sign: string, zeros: nat, m: nat, tail: string)
    requires sign == "" || sign == "+" || sign == "-"
    requires zeros >= 1
    ensures !IsJsWhitespace((sign + (Repeat('0', zeros) + NatToDecimal(m) + tail))[0])
  {
    var t := sign + (Repeat('0', zeros) + NatToDecimal(m) + tail);
    assert t[0] == if sign == "" then Repeat('0', zeros)[0] else sign[0];
  }

  /** Whitespace before a cell that does not start with whitespace does not change what `parseInt` reads. */
  lemma ParseIntAfterWhitespace(ws: string, t: string)
    requires forall i :: 0 <= i < |ws| ==> IsJsWhitespace(ws[i])
    requires t != [] && !IsJsWhitespace(t[0])
    ensures ParseIntOrZero(ws + t) == ParseIntOrZero(t)
  {
    LeadingWhitespaceOfPadded(ws, t);
    LeadingWhitespaceOfPadded([], t);
    assert [] + t == t;
    ParseIntSkipsWhitespace(ws + t, t);
  }

  lemma ParseIntOfSignedPadded(sign: string, zeros: nat, m: nat, tail: string)
    requires sign == "" || sign == "+" || sign == "-"
    requires zeros >= 1
    requires tail == [] || !IsDecDigit(tail[0])
    requires !IsJsWhitespace((sign + (Repeat('0', zeros) + NatToDecimal(m) + tail))[0])
    ensures ParseIntOrZero(sign + (Repeat('0', zeros) + NatToDecimal(m) + tail)) == if sign == "-" then -(m as int) else m
  {
    var u := Repeat('0', zeros) + NatToDecimal(m) + tail;
    var t := sign + u;
    LeadingWhitespaceOfPadded([], t);
    assert [] + t == t;
    if sign != "" {
      assert t[1..] == u;
    } else {
      assert t == u;
      assert t[0] == '0';
    }
    UnsignedValueOfPadded(zeros, m, tail);
  }

  /** Round trip: `parseInt` reads back every integer a template string prints. */
  lemma ParseIntOfPrintedInteger(n: int)
    ensures ParseIntOrZero(IntToDecimal(n)) == n
  {
    ParseIntReadsLeadingInteger([], n, []);
    assert [] + IntToDecimal(n) + [] == IntToDecimal(n);
  }

  /** A cell without a single decimal digit (blank, words, `-`) reads as 0. */
  lemma ParseIntOfNonNumeric(s: string)
    requires forall i :: 0 <= i < |s| ==> !IsDecDigit(s[i])
    ensures ParseIntOrZero(s) == 0
  {
    var t := TrimStart(s);
    var u := if t != [] && (t[0] == '-' || t[0] == '+') then t[1..] else t;
    assert forall i :: 0 <= i < |u| ==> !IsDecDigit(u[i]) by {
      forall i | 0 <= i < |u| ensures !IsDecDigit(u[i]) {
        if t != [] && (t[0] == '-' || t[0] == '+') {
          assert u[i] == s[LeadingWhitespace(s) + 1 + i];
        } else {
          assert u[i] == s[LeadingWhitespace(s) + i];
        }
      }
    }
  }

  predicate AllDecDigits(s: string) {
    forall i :: 0 <= i < |s| ==> IsDecDigit(s[i])
  }

  /** A match of `\d+(\.\d+)?` at offset `start`; `fraction` is empty when the group did not match. */
  datatype NumericToken = NumericToken(start: nat, whole: string, fraction: string)

  /** The matched text, `amountMatch[0]`. */
  function TokenText(t: NumericToken): string {
    if t.fraction == [] then t.whole else t.whole + "." + t.fraction
  }

  /**
   * What `s.match(/\d+(\.\d+)?/)` returns: the leftmost match, with each `\d+`
   * as long as possible and the fraction group taken whenever a `.` and a digit follow.
   */
  predicate IsFirstMatch(s: string, t: NumericToken) {
    var e := t.start + |t.whole|;
    var f := e + 1 + |t.fraction|;
    && t.whole != [] && AllDecDigits(t.whole) && AllDecDigits(t.fraction)
    && e <= |s| && (forall i :: t.start <= i < e ==> s[i] == t.whole[i - t.start])
    && (t.fraction != [] ==>
          f <= |s| && s[e] == '.' && forall i :: e < i < f ==> s[i] == t.fraction[i - e - 1])
    && (forall j :: 0 <= j < t.start ==> !IsDecDigit(s[j]))
    && (e < |s| ==> !IsDecDigit(s[e]))
    && (t.fraction == [] ==> !(e + 1 < |s| && s[e] == '.' && IsDecDigit(s[e + 1])))
    && (t.fraction != [] ==> f < |s| ==> !IsDecDigit(s[f]))
  }

  /** The matched text, `amountMatch[0]`, stands in `s` at the match's offset. */
  lemma MatchTextOccurs(s: string, t: NumericToken)
    requires IsFirstMatch(s, t)
    ensures OccursAt(s, TokenText(t), t.start)
  {
    var e := t.start + |t.whole|;
    assert s[t.start..e] == t.whole;
    if t.fraction != [] {
      var f := e + 1 + |t.fraction|;
      assert s[e + 1..f] == t.fraction;
      assert s[t.start..f] == s[t.start..e] + [s[e]] + s[e + 1..f];
    }
  }

  function FirstDigitFrom(s: string, i: nat): (r: Option<nat>)
    requires i <= |s|
    ensures r.Some? ==> i <= r.value < |s| && IsDecDigit(s[r.value])
                        && forall j :: i <= j < r.value ==> !IsDecDigit(s[j])
    ensures r.None? ==> forall j :: i <= j < |s| ==> !IsDecDigit(s[j])
    decreases |s| - i
  {
    if i == |s| then None else if IsDecDigit(s[i]) then Some(i) else FirstDigitFrom(s, i + 1)
  }

  /** Where the run of decimal digits that starts at offset `i` ends: `\d+` taken greedily. */
  function DigitRunEnd(s: string, i: nat): (e: nat)
    requires i <= |s|
    ensures i <= e <= |s|
    ensures forall k :: i <= k < e ==> IsDecDigit(s[k])
    ensures e < |s| ==> !IsDecDigit(s[e])
    decreases |s| - i
  {
    if i < |s| && IsDecDigit(s[i]) then DigitRunEnd(s, i + 1) else i
  }

  /** The match of `\d+(\.\d+)?` that starts at offset `p`. */
  function TokenAt(s: string, p: nat): NumericToken
    requires p <= |s|
  {
    var e := DigitRunEnd(s, p);
    var fraction :=
      if e + 1 < |s| && s[e] == '.' && IsDecDigit(s[e + 1]) then s[e + 1..DigitRunEnd(s, e + 1)] else [];
    NumericToken(p, s[p..e], fraction)
  }

  lemma TokenAtIsFirstMatch(s: string, p: nat)
    requires p < |s| && IsDecDigit(s[p])
    requires forall j :: 0 <= j < p ==> !IsDecDigit(s[j])
    ensures IsFirstMatch(s, TokenAt(s, p))
  {
    var e := DigitRunEnd(s, p);
    if e + 1 < |s| && s[e] == '.' && IsDecDigit(s[e + 1]) {
      WithFractionMatches(s, p, e, DigitRunEnd(s, e + 1));
    } else {
      WholeOnlyMatches(s, p, e);
    }
  }

  /** Digits `p..e` with no fraction after them are the first match when no digit precedes them. */
  lemma WholeOnlyMatches(s: string, p: nat, e: nat)
    requires p < e <= |s|
    requires forall k :: p <= k < e ==> IsDecDigit(s[k])
    requires e < |s| ==> !IsDecDigit(s[e])
    requires !(e + 1 < |s| && s[e] == '.' && IsDecDigit(s[e + 1]))
    requires forall j :: 0 <= j < p ==> !IsDecDigit(s[j])
    ensures IsFirstMatch(s, NumericToken(p, s[p..e], []))
  {
  }

  /** Digits `p..e`, a point and digits `e + 1..f` are the first match when no digit precedes them. */
  lemma WithFractionMatches(s: string, p: nat, e: nat, f: nat)
    requires p < e && e + 1 < f <= |s| && s[e] == '.'
    requires forall k :: p <= k < e ==> IsDecDigit(s[k])
    requires forall k :: e + 1 <= k < f ==> IsDecDigit(s[k])
    requires f < |s| ==> !IsDecDigit(s[f])
    requires forall j :: 0 <= j < p ==> !IsDecDigit(s[j])
    ensures IsFirstMatch(s, NumericToken(p, s[p..e], s[e + 1..f]))
  {
  }

  /** `s.match(/\d+(\.\d+)?/)`: None exactly when `s` has no decimal digit. */
  function FirstNumber(s: string): (r: Option<NumericToken>)
    ensures r.None? <==> forall j :: 0 <= j < |s| ==> !IsDecDigit(s[j])
    ensures r.Some? ==> IsFirstMatch(s, r.value)
  {
    match FirstDigitFrom(s, 0)
    case None => None
    case Some(p) =>
      TokenAtIsFirstMatch(s, p);
      Some(TokenAt(s, p))
  }

  function Pow10(k: nat): (r: nat)
    ensures r >= 1
  {
    if k == 0 then 1 else 10 * Pow10(k - 1)
  }

  /**
   * `parseFloat(TokenText(t)) === n` read exactly: whole + fraction / 10^|fraction|
   * equals `n`, cross-multiplied so that no rounding enters.
   */
  predicate TokenEquals(t: NumericToken, n: int): (b: bool)
    requires AllDecDigits(t.whole) && AllDecDigits(t.fraction)
    ensures b <==> DigitsValue(t.whole, false) == n && forall i :: 0 <= i < |t.fraction| ==> t.fraction[i] == '0'
  {
    FractionBelowScale(t.fraction);
    ZeroValueIffZeroDigits(t.fraction);
    ScaledEqualsIff(DigitsValue(t.whole, false), DigitsValue(t.fraction, false), Pow10(|t.fraction|), n);
    var scale := Pow10(|t.fraction|);
    DigitsValue(t.whole, false) * scale + DigitsValue(t.fraction, false) == n * scale
  }

  /** A fraction of `k` digits is less than one: its value is below 10^k. */
  lemma {:induction false} FractionBelowScale(ds: string)
    requires AllDecDigits(ds)
    ensures DigitsValue(ds, false) < Pow10(|ds|)
  {
    if ds != [] {
      var init := ds[..|ds| - 1];
      FractionBelowScale(init);
      var d := DigitValue(ds[|ds| - 1]);
      assert d <= 9;
      assert DigitsValue(ds, false) == DigitsValue(init, false) * 10 + d;
      assert DigitsValue(init, false) <= Pow10(|init|) - 1;
      assert DigitsValue(init, false) * 10 <= Pow10(|init|) * 10 - 10;
    }
  }

  /** A numeral is worth zero exactly when all its digits are `0`. */
  lemma {:induction false} ZeroValueIffZeroDigits(ds: string)
    requires AllDecDigits(ds)
    ensures DigitsValue(ds, false) == 0 <==> forall i :: 0 <= i < |ds| ==> ds[i] == '0'
  {
    if ds != [] {
      var init := ds[..|ds| - 1];
      ZeroValueIffZeroDigits(init);
      var d := DigitValue(ds[|ds| - 1]);
      assert d == 0 <==> ds[|ds| - 1] == '0';
      assert forall i :: 0 <= i < |init| ==> init[i] == ds[i];
    }
  }

  lemma ScaledDifference(n: int, w: int, scale: int)
    ensures n * scale - w * scale == (n - w) * scale
  {
  }

  lemma {:induction false} ProductOfNaturals(a: nat, b: nat)
    ensures a * b >= 0
  {
    if a > 0 {
      ProductOfNaturals(a - 1, b);
      assert a * b == (a - 1) * b + b;
    }
  }

  lemma ScaledAwayFromZero(d: int, scale: int)
    requires scale >= 1 && d != 0
    ensures d * scale >= scale || d * scale <= -scale
  {
    if d >= 1 {
      ProductOfNaturals(d - 1, scale);
      assert d * scale == (d - 1) * scale + scale;
    } else {
      ProductOfNaturals(-d - 1, scale);
      assert d * scale == -((-d - 1) * scale) - scale;
    }
  }

  /** Cross-multiplied equality with a proper fraction: the whole parts agree and the fraction is 0. */
  lemma ScaledEqualsIff(w: int, f: int, scale: int, n: int)
    requires scale >= 1 && 0 <= f < scale
    ensures w * scale + f == n * scale <==> w == n && f == 0
  {
    if w * scale + f == n * scale {
      ScaledDifference(n, w, scale);
      assert f == (n - w) * scale;
      if n - w != 0 {
        ScaledAwayFromZero(n - w, scale);
        assert false;
      }
    }
  }

}
