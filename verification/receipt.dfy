/**
 * The automatic receipt check: the first number in the reply of the
 * receipt-reading service is compared exactly with the fee; an equal amount
 * makes the submission `LULUS`, anything else leaves it pending.
 */
module Receipt {
  import opened Wrappers
  import opened Text
  import opened Numbers
  import opened Records

  /** What goes into the payload: `extractedAmount` and `status`. */
  datatype Verification = Verification(extractedAmount: string, initialStatus: Status)

  /** `response.text?.trim() || '0'` (an absent text is passed as ""). */
  function ReceiptText(reply: string): (r: string)
    ensures r != []
    ensures Trim(reply) == [] ==> r == "0"
    ensures Trim(reply) != [] ==> r == Trim(reply)
  {
    var t := Trim(reply);
    if t == [] then "0" else t
  }

  /**
   * The decision. `reply` is None when the service call threw. The status is
   * `LULUS` exactly when the reply holds a number whose whole part is the fee
   * and whose fraction digits are all `0`; it is never `DITOLAK`.
   */
  function VerifyReceipt(reply: Option<string>, fee: int): (r: Verification)
    ensures r.initialStatus != Rejected
    ensures reply.None? ==> r == Verification("", Pending)
    ensures r.initialStatus == Approved <==>
              reply.Some? && FirstNumber(ReceiptText(reply.value)).Some?
              && var t := FirstNumber(ReceiptText(reply.value)).value;
                 DigitsValue(t.whole, false) == fee && forall i :: 0 <= i < |t.fraction| ==> t.fraction[i] == '0'
    ensures r.extractedAmount != "" <==> reply.Some? && FirstNumber(ReceiptText(reply.value)).Some?
  {
    match reply
    case None => Verification("", Pending)
    case Some(text) =>
      match FirstNumber(ReceiptText(text))
      case None => Verification("", Pending)
      case Some(t) =>
        Verification(TokenText(t), if TokenEquals(t, fee) then Approved else Pending)
  }

  /**
   * The decision against a fee that may be NaN: `parseFloat(x) === NaN` is
   * false for every `x`, so a NaN fee leaves every submission pending.
   */
  function VerifyReceiptAgainst(reply: Option<string>, fee: NumberValue): (r: Verification)
    ensures fee.NaN? ==> r.initialStatus == Pending
    ensures fee.NaN? ==> (r.extractedAmount != "" <==> reply.Some? && FirstNumber(ReceiptText(reply.value)).Some?)
    ensures fee.Finite? ==> r == VerifyReceipt(reply, fee.value)
  {
    match fee
    case Finite(n) => VerifyReceipt(reply, n)
    case NaN => Verification(VerifyReceipt(reply, 0).extractedAmount, Pending)
  }

  /** The leftmost-longest match is unique: `IsFirstMatch` pins the token down. */
  lemma FirstMatchIsUnique(s: string, t1: NumericToken, t2: NumericToken)
    requires IsFirstMatch(s, t1) && IsFirstMatch(s, t2)
    ensures t1 == t2
  {
    SameMatchStart(s, t1, t2);
    var p := t1.start;
    SameDigitRun(s, p, t1.whole, t2.whole);
    SameFractionPresence(s, t1, t2);
    if t1.fraction != [] {
      SameDigitRun(s, p + |t1.whole| + 1, t1.fraction, t2.fraction);
    }
  }

  /** After the same whole part, a match has a fraction exactly when `.` and a digit follow. */
  lemma SameFractionPresence(s: string, t1: NumericToken, t2: NumericToken)
    requires IsFirstMatch(s, t1) && IsFirstMatch(s, t2)
    requires t1.start == t2.start && t1.whole == t2.whole
    ensures t1.fraction == [] <==> t2.fraction == []
  {
    var e := t1.start + |t1.whole|;
    if t1.fraction != [] {
      assert s[e + 1] == t1.fraction[0];
    }
    if t2.fraction != [] {
      assert s[e + 1] == t2.fraction[0];
    }
  }

  /** Both matches start at the first digit of `s`. */
  lemma SameMatchStart(s: string, t1: NumericToken, t2: NumericToken)
    requires IsFirstMatch(s, t1) && IsFirstMatch(s, t2)
    ensures t1.start == t2.start
  {
    assert s[t1.start] == t1.whole[0] && IsDecDigit(t1.whole[0]);
    assert s[t2.start] == t2.whole[0] && IsDecDigit(t2.whole[0]);
  }

  /** Two maximal digit runs that start at the same offset are the same run. */
  lemma SameDigitRun(s: string, p: nat, a: string, b: string)
    requires p + |a| <= |s| && p + |b| <= |s|
    requires AllDecDigits(a) && AllDecDigits(b)
    requires forall i :: p <= i < p + |a| ==> s[i] == a[i - p]
    requires forall i :: p <= i < p + |b| ==> s[i] == b[i - p]
    requires p + |a| < |s| ==> !IsDecDigit(s[p + |a|])
    requires p + |b| < |s| ==> !IsDecDigit(s[p + |b|])
    ensures a == b
  {
    forall i | 0 <= i < |a| ensures i < |b| && a[i] == b[i] {
      assert s[p + i] == a[i];
    }
  }

  /** An amount as the service might print it: a numeral and `zeros` zero decimals. */
  function PrintedAmount(n: nat, zeros: nat): string {
    NatToDecimal(n) + (if zeros == 0 then "" else "." + Repeat('0', zeros))
  }

  /** A printed amount starts and ends with a digit. */
  lemma PrintedAmountEnds(n: nat, zeros: nat)
    ensures var a := PrintedAmount(n, zeros); |a| > 0 && IsDecDigit(a[0]) && IsDecDigit(a[|a| - 1])
  {
    var digits := NatToDecimal(n);
    var a := PrintedAmount(n, zeros);
    assert a[0] == digits[0];
    if zeros > 0 {
      assert a[|a| - 1] == Repeat('0', zeros)[zeros - 1];
    }
  }

  /** A printed amount after a caption survives the trim untouched. */
  lemma PrintedReplyIsTrimmed(caption: string, n: nat, zeros: nat)
    requires caption == [] || !IsJsWhitespace(caption[0])
    ensures ReceiptText(caption + PrintedAmount(n, zeros)) == caption + PrintedAmount(n, zeros)
  {
    var amount := PrintedAmount(n, zeros);
    PrintedAmountEnds(n, zeros);
    var s := caption + amount;
    assert s[0] == (if caption == [] then amount[0] else caption[0]);
    assert s[|s| - 1] == amount[|amount| - 1];
    TrimKeepsTrimmed(s);
  }

  /** The first number in a caption without digits followed by a printed amount is that amount. */
  lemma PrintedReplyMatch(caption: string, n: nat, zeros: nat)
    requires forall i :: 0 <= i < |caption| ==> !IsDecDigit(caption[i])
    ensures IsFirstMatch(caption + PrintedAmount(n, zeros),
                         NumericToken(|caption|, NatToDecimal(n), if zeros == 0 then "" else Repeat('0', zeros)))
  {
    var s := caption + PrintedAmount(n, zeros);
    var digits := NatToDecimal(n);
    var p := |caption|;
    var e := p + |digits|;
    assert forall i :: p <= i < e ==> s[i] == digits[i - p];
    if zeros > 0 {
      assert s[e] == '.';
      assert forall i :: e < i < e + 1 + zeros ==> s[i] == '0';
    }
  }

  /** Whatever the reply, its verdict is decided by its first match alone. */
  lemma VerifyReceiptOfMatch(reply: string, t: NumericToken, fee: int)
    requires IsFirstMatch(ReceiptText(reply), t)
    ensures VerifyReceipt(Some(reply), fee)
            == Verification(TokenText(t), if TokenEquals(t, fee) then Approved else Pending)
  {
    var s := ReceiptText(reply);
    assert s[t.start] == t.whole[0];
    var found := FirstNumber(s);
    FirstMatchIsUnique(s, t, found.value);
  }

  /** The token of a printed amount spells the amount and equals exactly its numeral's value. */
  lemma PrintedTokenValue(n: nat, zeros: nat, fee: int, start: nat)
    ensures var t := NumericToken(start, NatToDecimal(n), if zeros == 0 then "" else Repeat('0', zeros));
            && AllDecDigits(t.whole) && AllDecDigits(t.fraction)
            && TokenText(t) == PrintedAmount(n, zeros)
            && (TokenEquals(t, fee) <==> n == fee)
  {
    var t := NumericToken(start, NatToDecimal(n), if zeros == 0 then "" else Repeat('0', zeros));
    assert AllDecDigits(t.whole) && AllDecDigits(t.fraction);
    assert forall i :: 0 <= i < |t.fraction| ==> t.fraction[i] == '0';
    NatToDecimalValue(n);
    assert TokenEquals(t, fee) <==> DigitsValue(t.whole, false) == fee;
  }

  /**
   * A reply made of a caption without digits and a printed amount is read as
   * that amount, and approves the submission exactly when the amount is the fee.
   */
  lemma VerifyPrintedAmount(caption: string, n: nat, zeros: nat, fee: int)
    requires forall i :: 0 <= i < |caption| ==> !IsDecDigit(caption[i])
    requires caption == [] || !IsJsWhitespace(caption[0])
    ensures VerifyReceipt(Some(caption + PrintedAmount(n, zeros)), fee)
            == Verification(PrintedAmount(n, zeros), if n == fee then Approved else Pending)
  {
    var s := caption + PrintedAmount(n, zeros);
    var t := NumericToken(|caption|, NatToDecimal(n), if zeros == 0 then "" else Repeat('0', zeros));
    PrintedReplyIsTrimmed(caption, n, zeros);
    PrintedReplyMatch(caption, n, zeros);
    VerifyReceiptOfMatch(s, t, fee);
    PrintedTokenValue(n, zeros, fee, |caption|);
  }

  /** A reply that is exactly the fee, printed as a numeral, is approved. */
  lemma ExactAmountApproved(fee: nat)
    ensures VerifyReceipt(Some(PrintedAmount(fee, 0)), fee).initialStatus == Approved
  {
    VerifyPrintedAmount("", fee, 0, fee);
    assert "" + PrintedAmount(fee, 0) == PrintedAmount(fee, 0);
  }

  /** A blank reply counts as "0": only a fee of 0 is approved by it. */
  lemma BlankReplyMeansZero(reply: string, fee: int)
    requires forall i :: 0 <= i < |reply| ==> IsJsWhitespace(reply[i])
    ensures VerifyReceipt(Some(reply), fee) == Verification("0", if fee == 0 then Approved else Pending)
  {
    var t := NumericToken(0, "0", "");
    BlankReplyReadsZero(reply);
    assert IsFirstMatch("0", t);
    VerifyReceiptOfMatch(reply, t, fee);
    ZeroTokenEquals(fee);
  }

  lemma BlankReplyReadsZero(reply: string)
    requires forall i :: 0 <= i < |reply| ==> IsJsWhitespace(reply[i])
    ensures ReceiptText(reply) == "0"
  {
    assert Trim(reply) == [];
  }

  lemma ZeroTokenEquals(fee: int)
    ensures TokenEquals(NumericToken(0, "0", ""), fee) <==> fee == 0
  {
    assert "0"[..0] == [];
  }
}
