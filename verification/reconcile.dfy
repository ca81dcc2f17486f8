/**
 * What the admin dashboard derives from the ledger and the roster: the total
 * collected over approved payments, the families that have not submitted,
 * the name search, the status update keyed by ledger row, and the numbered
 * reminder report.
 */
module Reconcile {
  import opened Wrappers
  import opened Text
  import opened Records
  import opened Seqs
  import opened Roster
  import opened Numbers

  // ---------------------------------------------------------------- total

  /** `Number(s.TotalAmount) || 0`: NaN counts as 0. */
  function AmountOrZero(v: NumberValue): int {
    match v
    case Finite(x) => x
    case NaN => 0
  }

  predicate IsApproved(s: SubmissionData) {
    s.status == Approved
  }

  /** `reduce((sum, s) => sum + (Number(s.TotalAmount) || 0), 0)`, left to right. */
  function SumAmounts(subs: seq<SubmissionData>): int {
    if subs == [] then 0
    else SumAmounts(subs[..|subs| - 1]) + AmountOrZero(subs[|subs| - 1].totalAmount)
  }

  /**
   * `totalKutipan`: the approved rows filtered out first, then summed. It is
   * the one-pass total, so pending and rejected rows add nothing; with no
   * negative amounts it lies between 0 and the sum over every row.
   */
  function TotalCollected(subs: seq<SubmissionData>): (r: int)
    ensures r == ApprovedSum(subs)
    ensures (forall i :: 0 <= i < |subs| ==> subs[i].status != Approved) ==> r == 0
    ensures (forall i :: 0 <= i < |subs| ==> AmountOrZero(subs[i].totalAmount) >= 0) ==> 0 <= r <= SumAmounts(subs)
  {
    ApprovedSubtotal(subs);
    SumAmounts(Filter(subs, IsApproved))
  }

  /**
   * The same total as one pass that adds a row's amount only when the row is
   * approved: 0 when no row is approved, and between 0 and the sum over every
   * row when no amount is negative.
   */
  function ApprovedSum(subs: seq<SubmissionData>): (r: int)
    ensures (forall i :: 0 <= i < |subs| ==> subs[i].status != Approved) ==> r == 0
    ensures (forall i :: 0 <= i < |subs| ==> AmountOrZero(subs[i].totalAmount) >= 0) ==> 0 <= r <= SumAmounts(subs)
  {
    if subs == [] then 0
    else
      var s := subs[|subs| - 1];
      ApprovedSum(subs[..|subs| - 1]) + (if s.status == Approved then AmountOrZero(s.totalAmount) else 0)
  }

  lemma {:induction false} SumAmountsAppend(xs: seq<SubmissionData>, ys: seq<SubmissionData>)
    ensures SumAmounts(xs + ys) == SumAmounts(xs) + SumAmounts(ys)
    decreases |ys|
  {
    if ys == [] {
      assert xs + ys == xs;
    } else {
      var ys' := ys[..|ys| - 1];
      assert (xs + ys)[..|xs + ys| - 1] == xs + ys';
      assert (xs + ys)[|xs + ys| - 1] == ys[|ys| - 1];
      SumAmountsAppend(xs, ys');
    }
  }

  /** Filtering then summing is the one-pass total. */
  lemma {:induction false} ApprovedSubtotal(subs: seq<SubmissionData>)
    ensures SumAmounts(Filter(subs, IsApproved)) == ApprovedSum(subs)
  {
    if subs != [] {
      var init := subs[..|subs| - 1];
      var s := subs[|subs| - 1];
      assert subs == init + [s];
      ApprovedSubtotalAppend(init, [s]);
      ApprovedSubtotalOfOne(s);
      ApprovedSubtotal(init);
    }
  }

  lemma ApprovedSubtotalAppend(xs: seq<SubmissionData>, ys: seq<SubmissionData>)
    ensures SumAmounts(Filter(xs + ys, IsApproved))
         == SumAmounts(Filter(xs, IsApproved)) + SumAmounts(Filter(ys, IsApproved))
  {
    FilterAppend(xs, ys, IsApproved);
    SumAmountsAppend(Filter(xs, IsApproved), Filter(ys, IsApproved));
  }

  lemma ApprovedSubtotalOfOne(s: SubmissionData)
    ensures SumAmounts(Filter([s], IsApproved)) == if s.status == Approved then AmountOrZero(s.totalAmount) else 0
  {
    assert Filter([s], IsApproved) == if IsApproved(s) then [s] else [] by {
      assert [s][1..] == [];
    }
    if IsApproved(s) {
      assert SumAmounts([s]) == AmountOrZero(s.totalAmount) by {
        assert [s][..0] == [];
      }
    }
  }

  /** A single row contributes its amount exactly when it is approved. */
  lemma TotalCollectedOfOne(s: SubmissionData)
    ensures TotalCollected([s]) == if s.status == Approved then AmountOrZero(s.totalAmount) else 0
  {
    assert [s][..0] == [];
  }

  /** The total over two ledgers placed end to end is the sum of their totals. */
  lemma {:induction false} TotalCollectedAppend(xs: seq<SubmissionData>, ys: seq<SubmissionData>)
    ensures TotalCollected(xs + ys) == TotalCollected(xs) + TotalCollected(ys)
    decreases |ys|
  {
    if ys == [] {
      assert xs + ys == xs;
    } else {
      var ys' := ys[..|ys| - 1];
      assert (xs + ys)[..|xs + ys| - 1] == xs + ys';
      assert (xs + ys)[|xs + ys| - 1] == ys[|ys| - 1];
      TotalCollectedAppend(xs, ys');
    }
  }

  // ---------------------------------------------------------------- unpaid

  /** `new Set(submissions.map(s => s.FamilyName))`. */
  function SubmittedNames(subs: seq<SubmissionData>): (r: set<string>)
    ensures forall n :: n in r <==> exists i :: 0 <= i < |subs| && subs[i].familyName == n
  {
    set i | 0 <= i < |subs| :: subs[i].familyName
  }

  /**
   * `unpaidFamilies`: the roster families whose name is exactly no ledger
   * row's family name, in roster order.
   */
  function UnpaidFamilies(families: seq<FamilyData>, subs: seq<SubmissionData>): (r: seq<FamilyData>)
    ensures forall f :: f in r <==>
              f in families && forall i :: 0 <= i < |subs| ==> subs[i].familyName != f.name
    ensures forall f :: multiset(r)[f] == if f.name in SubmittedNames(subs) then 0 else multiset(families)[f]
    ensures IsSubsequence(r, families)
  {
    var names := SubmittedNames(subs);
    Filter(families, (f: FamilyData) => f.name !in names)
  }

  /** Every element of a subsequence is an element of the whole. */
  lemma {:induction false} SubsequenceMembers<T>(r: seq<T>, xs: seq<T>)
    requires IsSubsequence(r, xs)
    ensures forall x :: x in r ==> x in xs
    decreases |xs|
  {
    if r != [] && xs != [] {
      if r[0] == xs[0] && IsSubsequence(r[1..], xs[1..]) {
        SubsequenceMembers(r[1..], xs[1..]);
        forall x | x in r ensures x in xs {
          if x != r[0] {
            assert x in r[1..];
          }
        }
      } else {
        SubsequenceMembers(r, xs[1..]);
      }
    }
  }

  /** A subsequence of a roster sorted by name is sorted by name. */
  lemma {:induction false} SubsequenceKeepsSorted(r: seq<FamilyData>, xs: seq<FamilyData>, leq: (string, string) -> bool)
    requires IsSubsequence(r, xs) && SortedByName(xs, leq)
    ensures SortedByName(r, leq)
    decreases |xs|
  {
    if r != [] && xs != [] {
      assert SortedByName(xs[1..], leq);
      if r[0] == xs[0] && IsSubsequence(r[1..], xs[1..]) {
        SubsequenceKeepsSorted(r[1..], xs[1..], leq);
        SubsequenceMembers(r[1..], xs[1..]);
        forall i, j | 0 <= i < j < |r| ensures leq(r[i].name, r[j].name) {
          if i == 0 {
            assert r[j] in r[1..];
            var k :| 0 <= k < |xs[1..]| && xs[1..][k] == r[j];
            assert xs[k + 1] == r[j];
          } else {
            assert r[i] == r[1..][i - 1] && r[j] == r[1..][j - 1];
          }
        }
      } else {
        SubsequenceKeepsSorted(r, xs[1..], leq);
      }
    }
  }

  /** The unpaid list of a sorted roster is sorted. */
  lemma UnpaidStaysSorted(families: seq<FamilyData>, subs: seq<SubmissionData>, leq: (string, string) -> bool)
    requires SortedByName(families, leq)
    ensures SortedByName(UnpaidFamilies(families, subs), leq)
  {
    SubsequenceKeepsSorted(UnpaidFamilies(families, subs), families, leq);
  }

  /** With an empty ledger every family is unpaid. */
  lemma UnpaidWithEmptyLedger(families: seq<FamilyData>)
    ensures UnpaidFamilies(families, []) == families
  {
    FilterKeepsAll(families, (f: FamilyData) => f.name !in SubmittedNames([]));
  }

  // ---------------------------------------------------------------- search

  /** `name.toLowerCase().includes(query.toLowerCase())`. */
  predicate Matches(name: string, query: string) {
    Contains(ToLower(name), ToLower(query))
  }

  /** `filteredSubmissions`. */
  function SearchSubmissions(subs: seq<SubmissionData>, query: string): (r: seq<SubmissionData>)
    ensures forall s :: s in r <==> s in subs && Contains(ToLower(s.familyName), ToLower(query))
    ensures forall s :: multiset(r)[s] == if Contains(ToLower(s.familyName), ToLower(query)) then multiset(subs)[s] else 0
    ensures IsSubsequence(r, subs)
  {
    Filter(subs, (s: SubmissionData) => Matches(s.familyName, query))
  }

  /** `filteredUnpaidFamilies`. */
  function SearchFamilies(families: seq<FamilyData>, query: string): (r: seq<FamilyData>)
    ensures forall f :: f in r <==> f in families && Contains(ToLower(f.name), ToLower(query))
    ensures forall f :: multiset(r)[f] == if Contains(ToLower(f.name), ToLower(query)) then multiset(families)[f] else 0
    ensures IsSubsequence(r, families)
  {
    Filter(families, (f: FamilyData) => Matches(f.name, query))
  }

  /** An empty search box shows the whole ledger. */
  lemma EmptySearchKeepsSubmissions(subs: seq<SubmissionData>)
    ensures SearchSubmissions(subs, "") == subs
  {
    assert forall s | s in subs :: Matches(s.familyName, "");
    FilterKeepsAll(subs, (s: SubmissionData) => Matches(s.familyName, ""));
  }

  /** An empty search box shows every unpaid family. */
  lemma EmptySearchKeepsFamilies(families: seq<FamilyData>)
    ensures SearchFamilies(families, "") == families
  {
    assert forall f | f in families :: Matches(f.name, "");
    FilterKeepsAll(families, (f: FamilyData) => Matches(f.name, ""));
  }

  /** The search ignores letter case in the query. */
  lemma SearchIgnoresQueryCase(subs: seq<SubmissionData>, query: string)
    ensures forall s :: s in SearchSubmissions(subs, query) <==> s in SearchSubmissions(subs, ToLower(query))
  {
    ToLowerIdempotent(query);
  }

  // ---------------------------------------------------------------- review

  /**
   * The ledger after a successful `updateStatus(rowIndex, target)`: every row
   * with that `rowIndex` gets the new status, nothing else changes.
   */
  function WithStatus(subs: seq<SubmissionData>, rowIndex: int, target: ReviewStatus): (r: seq<SubmissionData>)
    ensures |r| == |subs|
    ensures forall i :: 0 <= i < |subs| ==>
              if subs[i].rowIndex == rowIndex then r[i] == subs[i].(status := target) else r[i] == subs[i]
  {
    if subs == [] then []
    else
      var s := subs[0];
      [if s.rowIndex == rowIndex then s.(status := target) else s] + WithStatus(subs[1..], rowIndex, target)
  }

  /** A review never sends a row back to pending, and rows pending before stay put unless addressed. */
  lemma ReviewNeverMakesPending(subs: seq<SubmissionData>, rowIndex: int, target: ReviewStatus)
    ensures forall i :: 0 <= i < |subs| && WithStatus(subs, rowIndex, target)[i].status == Pending ==>
              subs[i].status == Pending && subs[i].rowIndex != rowIndex
  {
  }

  /** The second of two reviews of the same row wins. */
  lemma LastReviewWins(subs: seq<SubmissionData>, rowIndex: int, first: ReviewStatus, second: ReviewStatus)
    ensures WithStatus(WithStatus(subs, rowIndex, first), rowIndex, second) == WithStatus(subs, rowIndex, second)
  {
    var a := WithStatus(WithStatus(subs, rowIndex, first), rowIndex, second);
    var b := WithStatus(subs, rowIndex, second);
    assert |a| == |b|;
    forall i | 0 <= i < |a| ensures a[i] == b[i] {
    }
  }

  /** Reviews of different rows can be applied in either order. */
  lemma ReviewsOfDifferentRowsCommute(subs: seq<SubmissionData>, k1: int, t1: ReviewStatus, k2: int, t2: ReviewStatus)
    requires k1 != k2
    ensures WithStatus(WithStatus(subs, k1, t1), k2, t2) == WithStatus(WithStatus(subs, k2, t2), k1, t1)
  {
    var a := WithStatus(WithStatus(subs, k1, t1), k2, t2);
    var b := WithStatus(WithStatus(subs, k2, t2), k1, t1);
    assert |a| == |b|;
    forall i | 0 <= i < |a| ensures a[i] == b[i] {
    }
  }

  /** The review buttons: the one for the row's current status is disabled. */
  predicate ActionEnabled(s: SubmissionData, target: ReviewStatus) {
    s.status != target
  }

  /** An enabled action on a row of the ledger changes the ledger. */
  lemma EnabledActionChangesLedger(subs: seq<SubmissionData>, i: nat, target: ReviewStatus)
    requires i < |subs| && ActionEnabled(subs[i], target)
    ensures WithStatus(subs, subs[i].rowIndex, target) != subs
  {
    assert WithStatus(subs, subs[i].rowIndex, target)[i].status == target;
  }

  /** The total over a ledger split around one row. */
  lemma TotalCollectedAround(xs: seq<SubmissionData>, s: SubmissionData, ys: seq<SubmissionData>)
    ensures TotalCollected(xs + [s] + ys)
            == TotalCollected(xs) + (if s.status == Approved then AmountOrZero(s.totalAmount) else 0) + TotalCollected(ys)
  {
    TotalCollectedAppend(xs + [s], ys);
    TotalCollectedAppend(xs, [s]);
    TotalCollectedOfOne(s);
  }

  /** Reviewing the only row with a given key replaces that row and keeps the rest. */
  lemma WithStatusOfUniqueRow(subs: seq<SubmissionData>, i: nat, target: ReviewStatus)
    requires i < |subs|
    requires forall j :: 0 <= j < |subs| && j != i ==> subs[j].rowIndex != subs[i].rowIndex
    ensures WithStatus(subs, subs[i].rowIndex, target) == subs[..i] + [subs[i].(status := target)] + subs[i + 1..]
  {
    var r := WithStatus(subs, subs[i].rowIndex, target);
    var e := subs[..i] + [subs[i].(status := target)] + subs[i + 1..];
    assert |r| == |e|;
    forall j | 0 <= j < |r| ensures r[j] == e[j] {
      if j < i {
        assert e[j] == subs[j];
      } else if j > i {
        assert e[j] == subs[j];
      }
    }
  }

  /** Approving one unapproved row between two parts of the ledger adds its amount. */
  lemma ApprovingOneRow(xs: seq<SubmissionData>, s: SubmissionData, ys: seq<SubmissionData>)
    requires s.status != Approved
    ensures TotalCollected(xs + [s.(status := Approved)] + ys)
            == TotalCollected(xs + [s] + ys) + AmountOrZero(s.totalAmount)
  {
    TotalCollectedAround(xs, s, ys);
    TotalCollectedAround(xs, s.(status := Approved), ys);
  }

  /** Approving a row that is not yet approved adds its amount to the total collected. */
  lemma ApprovingAddsAmount(subs: seq<SubmissionData>, i: nat)
    requires i < |subs| && subs[i].status != Approved
    requires forall j :: 0 <= j < |subs| && j != i ==> subs[j].rowIndex != subs[i].rowIndex
    ensures TotalCollected(WithStatus(subs, subs[i].rowIndex, Approved))
            == TotalCollected(subs) + AmountOrZero(subs[i].totalAmount)
  {
    var s, xs, ys := subs[i], subs[..i], subs[i + 1..];
    assert subs == xs + [s] + ys;
    WithStatusOfUniqueRow(subs, i, Approved);
    ApprovingOneRow(xs, s, ys);
  }

  // ---------------------------------------------------------------- report

  const ReportTitle: string := "*Laporan Pembayaran Majlis Berbuka Puasa*\n\n"
  const CountLabel: string := "Jumlah Keluarga Belum Bayar: *"
  const CountUnit: string := " keluarga*\n\n"
  const ListHeading: string := "*Senarai Nama Keluarga:*\n"

  /**
   * The text before the list: title, the count of unpaid families, list
   * heading. The count's decimal digits stand between the label and the unit.
   */
  function ReportHeader(count: nat): (r: string)
    ensures ReportTitle + CountLabel <= r
    ensures |r| == |ReportTitle + CountLabel| + |NatToDecimal(count)| + |CountUnit + ListHeading|
    ensures r[|ReportTitle + CountLabel|..|r| - |CountUnit + ListHeading|] == NatToDecimal(count)
    ensures r[|r| - |CountUnit + ListHeading|..] == CountUnit + ListHeading
  {
    var r := ReportTitle + CountLabel + NatToDecimal(count) + CountUnit + ListHeading;
    assert r == (ReportTitle + CountLabel) + NatToDecimal(count) + (CountUnit + ListHeading);
    r
  }

  /** Headers with different counts differ: the count can be read back from the header. */
  lemma ReportHeaderDeterminesCount(a: nat, b: nat)
    requires ReportHeader(a) == ReportHeader(b)
    ensures a == b
  {
    var h := ReportHeader(a);
    var m := |CountUnit + ListHeading|;
    assert |NatToDecimal(a)| == |NatToDecimal(b)|;
    assert NatToDecimal(a) == h[|ReportTitle + CountLabel|..|h| - m] == NatToDecimal(b);
    NatToDecimalValue(a);
    NatToDecimalValue(b);
  }

  const AdultsLabel: string := " (Dewasa: "
  const ChildrenLabel: string := ", Kanak-kanak: "
  const LineEnd: string := ")\n"

  /**
   * One numbered line of the list: the number, a dot and the name, then the
   * adult count after its label and the child count after its own, and a
   * line break.
   */
  function ReportLine(number: nat, f: FamilyData): (r: string)
    ensures NatToDecimal(number) + ". " + f.name <= r
    ensures |r| > |NatToDecimal(number) + ". " + f.name| && r[|r| - 1] == '\n'
  {
    NatToDecimal(number) + ". " + f.name
    + " (Dewasa: " + IntToDecimal(f.adults) + ", Kanak-kanak: " + IntToDecimal(f.children) + ")\n"
  }

  /** The part of a line after the name: both counts, each after its label. */
  function PartyText(adults: int, children: int): string {
    AdultsLabel + (IntToDecimal(adults) + (ChildrenLabel + (IntToDecimal(children) + LineEnd)))
  }

  /** After the number and the name, a line shows the adult count and the child count, each after its label. */
  lemma ReportLineShowsParty(number: nat, f: FamilyData)
    ensures ReportLine(number, f)[|NatToDecimal(number) + ". " + f.name|..] == PartyText(f.adults, f.children)
  {
  }

  /** The line of a family shows its counts: two lines for one name and number differ when the counts do. */
  lemma ReportLineDeterminesParty(number: nat, f: FamilyData, g: FamilyData)
    requires f.name == g.name && ReportLine(number, f) == ReportLine(number, g)
    ensures f.adults == g.adults && f.children == g.children
  {
    ReportLineShowsParty(number, f);
    ReportLineShowsParty(number, g);
    PartyDeterminesCounts(f.adults, f.children, g.adults, g.children);
  }

  lemma PartyDeterminesCounts(a1: int, c1: int, a2: int, c2: int)
    requires PartyText(a1, c1) == PartyText(a2, c2)
    ensures a1 == a2 && c1 == c2
  {
    var n1, n2 := IntToDecimal(a1), IntToDecimal(a2);
    var m1, m2 := IntToDecimal(c1), IntToDecimal(c2);
    var r1, r2 := ChildrenLabel + (m1 + LineEnd), ChildrenLabel + (m2 + LineEnd);
    DropCommonPrefix(AdultsLabel, n1 + r1, n2 + r2);
    assert r1[0] == ',' && r2[0] == ',';
    SplitAtStop(n1, r1, n2, r2, ',');
    IntToDecimalInjective(a1, a2);
    DropCommonPrefix(ChildrenLabel, m1 + LineEnd, m2 + LineEnd);
    SplitAtStop(m1, LineEnd, m2, LineEnd, ')');
    IntToDecimalInjective(c1, c2);
  }

  /** The lines for `fs`, numbered from 1, in list order; every line ends with a break. */
  function NumberedLines(fs: seq<FamilyData>): (r: string)
    ensures fs == [] <==> r == []
    ensures r != [] ==> r[|r| - 1] == '\n'
  {
    if fs == [] then ""
    else NumberedLines(fs[..|fs| - 1]) + ReportLine(|fs|, fs[|fs| - 1])
  }

  /** The lines for one more family are the lines before it followed by its own line. */
  lemma NumberedLinesExtend(fs: seq<FamilyData>, i: nat)
    requires i < |fs|
    ensures NumberedLines(fs[..i + 1]) == NumberedLines(fs[..i]) + ReportLine(i + 1, fs[i])
  {
    assert fs[..i + 1][..i] == fs[..i];
  }

  /** The lines for the first `k` families open the lines for the whole list. */
  lemma {:induction false} NumberedLinesPrefix(fs: seq<FamilyData>, k: nat)
    requires k <= |fs|
    ensures NumberedLines(fs[..k]) <= NumberedLines(fs)
    decreases |fs| - k
  {
    if k == |fs| {
      assert fs[..k] == fs;
    } else {
      NumberedLinesExtend(fs, k);
      NumberedLinesPrefix(fs, k + 1);
      PrefixOfPrefix(NumberedLines(fs[..k]), NumberedLines(fs[..k + 1]), NumberedLines(fs));
    }
  }

  /**
   * Family `k` (from 0) is on line `k + 1`: its line follows the lines of the
   * families before it at the start of the report's list.
   */
  lemma ReportLinePosition(fs: seq<FamilyData>, k: nat)
    requires k < |fs|
    ensures NumberedLines(fs[..k]) + ReportLine(k + 1, fs[k]) <= NumberedLines(fs)
  {
    NumberedLinesExtend(fs, k);
    NumberedLinesPrefix(fs, k + 1);
  }

  /** What `handleSendWhatsApp` produces: an alert, or the text of the WhatsApp message. */
  datatype ReportOutcome = Alert(message: string) | Report(text: string)

  const NothingToReportMessage: string := "Tiada keluarga yang belum membuat pembayaran."

  /**
   * `handleSendWhatsApp` up to the encoding of the link: an alert that no
   * family is unpaid for an empty list, otherwise the header with the count and
   * one numbered line per family in list order.
   */
  method BuildReport(unpaid: seq<FamilyData>) returns (outcome: ReportOutcome)
    ensures unpaid == [] <==> outcome == Alert(NothingToReportMessage)
    ensures unpaid != [] ==> outcome == Report(ReportHeader(|unpaid|) + NumberedLines(unpaid))
  {
    if |unpaid| == 0 {
      return Alert(NothingToReportMessage);
    }
    var header := ReportHeader(|unpaid|);
    var message := header;
    ghost var lines := "";
    var i := 0;
    assert unpaid[..0] == [];
    while i < |unpaid|
      invariant 0 <= i <= |unpaid|
      invariant lines == NumberedLines(unpaid[..i])
      invariant message == header + lines
    {
      NumberedLinesExtend(unpaid, i);
      var line := ReportLine(i + 1, unpaid[i]);
      AppendAssociative(header, lines, line);
      message := message + line;
      lines := lines + line;
      i := i + 1;
    }
    assert unpaid[..i] == unpaid;
    return Report(message);
  }
}
