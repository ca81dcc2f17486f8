/**
 * A walkthrough of the two pages with one family of two adults and a child at
 * 30 each: the fee it owes, the receipt that approves it, the unpaid list
 * before and after its submission, and the total once it is approved.
 */
module Walkthrough {
  import opened Wrappers
  import opened Text
  import opened Numbers
  import opened Records
  import opened Fees
  import opened Receipt
  import opened Reconcile

  /** The family owes 90. */
  lemma OwesNinety()
    ensures Fee(FamilyData("Ali", 2, 1), Prices(30, 30)) == 90
  {
  }

  /** A receipt read as "90" approves a fee of 90. */
  lemma NinetyApproves()
    ensures VerifyReceipt(Some("90"), 90).initialStatus == Approved
  {
    var t := NumericToken(0, "90", "");
    NinetyIsFirstMatch();
    VerifyReceiptOfMatch("90", t, 90);
    NinetyEqualsFee();
  }

  lemma NinetyIsFirstMatch()
    ensures IsFirstMatch(ReceiptText("90"), NumericToken(0, "90", ""))
  {
    TrimKeepsTrimmed("90");
  }

  lemma NinetyEqualsFee()
    ensures TokenEquals(NumericToken(0, "90", ""), 90)
  {
    assert "90"[..1] == "9";
  }

  /** Before any submission the family is unpaid; once its row is in the ledger it is not. */
  lemma UnpaidUntilSubmitted(row: SubmissionData)
    requires row.familyName == "Ali"
    ensures UnpaidFamilies([FamilyData("Ali", 2, 1)], []) == [FamilyData("Ali", 2, 1)]
    ensures UnpaidFamilies([FamilyData("Ali", 2, 1)], [row]) == []
  {
    UnpaidWithEmptyLedger([FamilyData("Ali", 2, 1)]);
    var ali := FamilyData("Ali", 2, 1);
    var r := UnpaidFamilies([ali], [row]);
    assert [row][0].familyName == ali.name;
    assert ali !in r;
  }

  /** With its approved row of 90 in the ledger, 90 has been collected. */
  lemma NinetyCollected(row: SubmissionData)
    requires row.status == Approved && row.totalAmount == Finite(90)
    ensures TotalCollected([row]) == 90
  {
    TotalCollectedOfOne(row);
  }
}
