# Berbuka Puasa 2026 payments — a Dafny model

The application collects payments for a community break-fast dinner. Families
on a roster sheet pay per adult and per child. They upload a bank receipt, and
a receipt-reading service reads the amount off it. A receipt whose amount
equals the fee is approved (`LULUS`) at once; any other receipt waits for an
administrator (`MENUNGGU PENGESAHAN`). The administrator approves or rejects
(`DITOLAK`) ledger rows, sees the total collected and the families that have
not paid, searches both lists by name, and sends a numbered reminder report.

This project models the decision logic of the two pages that do this work:
the payment page and the admin dashboard. It proves what those pages promise.

| file | module | what it models |
|---|---|---|
| `wrappers.dfy` | `Wrappers` | `Option` |
| `text.dfy` | `Text` | JavaScript `trim`, ASCII `toLowerCase`, `includes`, `repeat`, integer printing |
| `numbers.dfy` | `Numbers` | `parseInt(x) \|\| 0`; the first match of `\d+(\.\d+)?`; exact equality of the matched decimal with an integer |
| `records.dfy` | `Records` | the record shapes of `src/types.ts` and the three status literals |
| `seqs.dfy` | `Seqs` | `Array.prototype.filter` and the order it keeps |
| `roster.dfy` | `Roster` | the roster decode loop and the in-place sort by name (an array insertion sort) |
| `fees.dfy` | `Fees` | the fee formula, both with prices given and as the page evaluates it |
| `receipt.dfy` | `Receipt` | the automatic receipt decision |
| `upload.dfy` | `Upload` | the file checks, data-URL stripping and base64 padding |
| `payment.dfy` | `PaymentPage` | the payment page as a class: mount, choose family, choose file, submit |
| `reconcile.dfy` | `Reconcile` | total collected, unpaid families, search, status update, report text |
| `admin.dfy` | `AdminPage` | the admin dashboard as a class: load, search, review, report |
| `walkthrough.dfy` | `Walkthrough` | one family of two adults and a child at 30 each, through both pages |

Every network reply, the receipt-reading service's text and the file
reader's data URL is a parameter of the step that awaits it. `None` stands
for a call that threw. The locale comparison used for sorting is a parameter
too, assumed total and transitive. The adult and child prices are also
parameters; see Findings.

Some behaviour of the code is easy to overlook, and the model keeps it:

- A roster row whose name cell is only whitespace is kept, with the name
  `""`, because the code tests the untrimmed cell.
- Counts are whatever `parseInt` reads, so a cell `-3` gives the count -3.
- When the roster sheet cannot be parsed, the dashboard keeps its previous
  roster; a failed ledger fetch keeps the previous ledger.
- With the constants as shipped, no receipt is ever approved automatically,
  not even one reading "90" for a fee of 90 (see Findings).

## Model

| member | source | states |
|---|---|---|
| Text.Trim | src/pages/Payment.tsx:50 | `trim` yields the slice of the input after its leading whitespace that neither starts nor ends with whitespace; everything cut from either side is ECMAScript whitespace |
| Text.TrimKeepsTrimmed | src/pages/Payment.tsx:191 | a non-empty text that neither starts nor ends with whitespace is left as it is by `trim` |
| Text.TrimIdempotent | src/pages/Payment.tsx:191 | trimming a trimmed string changes nothing |
| Text.ToLower | src/pages/AdminDashboard.tsx:124 | lower-casing keeps the length, turns each ASCII capital into its small letter, leaves every other character as it is, and leaves no ASCII capital |
| Text.Contains | src/pages/AdminDashboard.tsx:124 | a text contains only queries no longer than itself; it contains the empty query and itself |
| Text.ToLowerIdempotent | src/pages/AdminDashboard.tsx:124 | lower-casing twice is lower-casing once |
| Text.IntToDecimal | src/pages/AdminDashboard.tsx:107 | an integer prints as at least one character, with a leading minus sign exactly when it is negative and decimal digits everywhere else |
| Numbers.IntToDecimalInjective | src/pages/AdminDashboard.tsx:107 | different integers print differently |
| Text.NatToDecimal | src/pages/AdminDashboard.tsx:103 | a count prints as decimal digits with no leading zero |
| Numbers.ParseIntOrZero | src/pages/Payment.tsx:51-52 | a non-zero count needs the cell, after its leading whitespace, to start with a digit or with a sign and a digit; a negative count needs a minus sign there |
| Numbers.UnsignedValue | src/pages/Payment.tsx:51-52 | `parseInt` after the sign reads a number only when the text starts with a decimal digit, and reads nothing from `0x` or `0X` without a hexadecimal digit after it |
| Numbers.UnsignedValueOfHex | src/pages/Payment.tsx:51-52 | after `0x` or `0X`, the run of hexadecimal digits is read in radix 16 |
| Numbers.UnsignedValueOfPadded | src/pages/Payment.tsx:51-52 | a numeral with leading zeros is read in radix 10 at the value of its digits |
| Numbers.LeadingDigits | src/pages/Payment.tsx:51 | the digits `parseInt` reads are the longest run of digits that the cell starts with |
| Numbers.ParseIntReadsLeadingInteger | src/pages/Payment.tsx:51-52 | a count cell of whitespace, an integer's numeral and a tail that does not continue it decodes to that integer |
| Numbers.ParseIntOfPrintedInteger | src/pages/Payment.tsx:51-52 | every printed integer decodes back to itself |
| Numbers.ParseIntOfPaddedNumeral | src/pages/Payment.tsx:51-52 | a cell of whitespace, an optional `+` or `-`, a numeral with leading zeros and a tail that does not continue it reads as the numeral's value, negated after `-` |
| Numbers.ParseIntOfNonNumeric | src/pages/Payment.tsx:51-52 | a count cell without a decimal digit decodes to 0 |
| Numbers.TokenAtIsFirstMatch | src/pages/Payment.tsx:192-193 | the digits from the first digit of the text, with a fraction when a dot and a digit follow, form the leftmost-longest match |
| Numbers.FirstNumber | src/pages/Payment.tsx:192-193 | there is no match exactly when the text has no digit; otherwise the match starts at the first digit, takes every digit after it and takes a fraction only when a digit follows the dot |
| Numbers.MatchTextOccurs | src/pages/Payment.tsx:194 | the extracted amount is text that occurs in the reply at the match's offset |
| Numbers.TokenEquals | src/pages/Payment.tsx:195 | the matched decimal equals an integer exactly when its whole part is that integer and all its fraction digits are 0 |
| Receipt.ReceiptText | src/pages/Payment.tsx:191 | the text searched is the trimmed reply when that is not empty, and "0" when it is; it is never empty |
| Receipt.VerifyReceipt | src/pages/Payment.tsx:168-202 | the status is never `DITOLAK`; a thrown service call gives no amount and a pending status; the status is `LULUS` exactly when a number was matched whose value equals the fee; an amount is recorded exactly when a number was matched |
| Receipt.VerifyReceiptAgainst | src/pages/Payment.tsx:195 | against a NaN fee every receipt stays pending, and the amount is still recorded as matched |
| Receipt.FirstMatchIsUnique | src/pages/Payment.tsx:192 | two leftmost-longest matches of the same text are the same match |
| Receipt.VerifyReceiptOfMatch | src/pages/Payment.tsx:192-198 | the decision depends on the reply only through its first match |
| Receipt.PrintedReplyMatch | src/pages/Payment.tsx:192-193 | in a caption without digits followed by a printed amount, the match is the amount's numeral and its zero decimals |
| Receipt.PrintedTokenValue | src/pages/Payment.tsx:194-195 | the matched text of a printed amount is that amount, and it equals a fee exactly when its numeral is the fee |
| Receipt.VerifyPrintedAmount | src/pages/Payment.tsx:191-198 | a caption without digits followed by a printed amount is read as that amount, and approves exactly when its value is the fee |
| Receipt.ExactAmountApproved | src/pages/Payment.tsx:195-197 | a reply that is the fee itself is approved |
| Receipt.BlankReplyMeansZero | src/pages/Payment.tsx:191 | a blank reply records "0" and approves only a fee of 0 |
| Seqs.Filter | src/pages/AdminDashboard.tsx:117 | a filter keeps exactly the elements satisfying the predicate, each as many times as it occurs, in their original order |
| Seqs.FilterAppend | src/pages/AdminDashboard.tsx:117 | filtering two lists end to end is filtering each and joining the results |
| Roster.KeptRowsProvenance | src/pages/Payment.tsx:46-55 | every decoded family comes from a row with four cells and a non-empty name, and every such row yields its family |
| Roster.SortByName | src/pages/Payment.tsx:58 | after the sort the roster is ordered by the comparator and is a permutation of what it was |
| Roster.DecodeRoster | src/pages/Payment.tsx:45-59 | the decoded roster is sorted; it is a permutation of the families of the kept rows after the header; it is empty without data rows; each family has the trimmed name and decoded counts of a kept row, and each kept row's family is present |
| Roster.RosterRowsMatch | src/pages/AdminDashboard.tsx:48-59 | any permutation of the kept rows' families has both provenance properties |
| Fees.Fee | src/pages/Payment.tsx:166 | with non-negative counts and prices the fee is non-negative; with no adults and no children it is 0 |
| Fees.FeeIsLinear | src/pages/Payment.tsx:166 | the fee of two parties together is the sum of their fees |
| Fees.FeeIsMonotone | src/pages/Payment.tsx:166 | more people never lower the fee at non-negative prices |
| Fees.DisplayedTotal | src/pages/Payment.tsx:255 | the total shown is 0 with no family chosen and that family's fee otherwise |
| Fees.FeeAsEvaluated | src/pages/Payment.tsx:166 | the fee expression is a number exactly when both prices are defined, and is then `Fee`; otherwise it is NaN |
| Upload.Acceptable | src/pages/Payment.tsx:113-122 | a kept file is at most 50 MB and is JPEG, PNG or PDF; a PDF of at most 50 MB is kept |
| Upload.FileProblem | src/pages/Payment.tsx:112-127 | a file is refused exactly when it is over 50 MB or not JPEG, PNG or PDF; the size error takes precedence over the type error |
| Upload.DataUrlPrefix | src/pages/Payment.tsx:138 | the stripped prefix is empty unless the text starts with `data:`; otherwise it runs to the last comma before the first line break, or is `data:` alone |
| Upload.DataUrlBody | src/pages/Payment.tsx:138 | the stripped text is what follows the matched prefix (`DataUrlPrefix`): a suffix of the data URL, the whole text when it is not a data URL, and without the `data:` scheme when it is one |
| Upload.DataUrlBodyOfEncoded | src/pages/Payment.tsx:136-138 | a data URL with a one-line header and a comma-free payload is stripped down to exactly its payload |
| Upload.PaddedBodyIsUnique | src/pages/Payment.tsx:139-141 | a body has exactly one padded form |
| Upload.WholeGroupsNeedNoPadding | src/pages/Payment.tsx:139-141 | a body whose length is a multiple of four is sent unpadded |
| Upload.PaddedWithEquals | src/pages/Payment.tsx:139-141 | appending `4 - n % 4` equals signs to a body of length n that is not a multiple of four gives its padded form |
| Upload.GetBase64 | src/pages/Payment.tsx:133-146 | the result is the stripped body followed by fewer than four `=`, with a length that is a multiple of four |
| PaymentPage.FindFamily | src/pages/Payment.tsx:83 | finds nothing exactly when no family has the name; otherwise finds the first family with exactly that name |
| PaymentPage.RefusalMessage | src/pages/Payment.tsx:221 | a refusal shows the service's message when there is one and it is not empty, and otherwise exactly the fixed system error; it is never empty |
| PaymentPage.SaysAlreadySent | src/pages/Payment.tsx:222 | a refusal recognised as "already sent" has a message, and that message is the one shown; the bare marker is recognised |
| PaymentPage.MarkerAnywhereIsRecognised | src/pages/Payment.tsx:222 | a refusal holding `telah menghantar` anywhere in its text is recognised as "already sent" |
| PaymentPage.ShippedPricesNeverApprove | src/pages/Payment.tsx:166 | with neither price defined, no reply approves any family |
| PaymentPage.DefinedPricesApproveExactAmount | src/pages/Payment.tsx:166-197 | with both prices defined, a reply stating the family's non-negative fee is approved |
| PaymentPage.PaymentForm.constructor | src/pages/Payment.tsx:29-73 | mounting starts with nothing chosen and loads the roster: decoded and sorted when it parses, empty with the parse or connection error otherwise |
| PaymentPage.PaymentForm.ChangeFamily | src/pages/Payment.tsx:75-106 | an empty choice clears the family and the submitted flag; otherwise the family is looked up by name; when found, the flag and error are reset and the status check's reply sets the flag and status, the connection error or the system error; the roster and file are untouched |
| PaymentPage.PaymentForm.ChangeFile | src/pages/Payment.tsx:108-131 | no file changes nothing; an acceptable file is kept and clears the error; a refused one is dropped with its error |
| PaymentPage.PaymentForm.Submit | src/pages/Payment.tsx:148-231 | a missing family is reported before a missing file, and either yields no payload; otherwise the payload carries the family, its fee, the padded receipt, the file's type and name, and the receipt decision; a thrown post shows the system error; a refusal shows its message and sets the submitted flag exactly when it says `telah menghantar`; success sets the success flag |
| Reconcile.TotalCollected | src/pages/AdminDashboard.tsx:116-118 | the filtered-then-summed total is the one-pass total `ApprovedSum`; it is 0 when no row is approved, and with no negative amounts it lies between 0 and the sum over all rows |
| Reconcile.ApprovedSum | src/pages/AdminDashboard.tsx:116-118 | the one-pass total of approved amounts (NaN as 0) is 0 when no row is approved, and with no negative amounts lies between 0 and the sum over all rows |
| Reconcile.ApprovedSubtotal | src/pages/AdminDashboard.tsx:116-118 | filtering the approved rows and then summing gives the same total as adding each approved row's amount in one pass |
| Reconcile.TotalCollectedOfOne | src/pages/AdminDashboard.tsx:116-118 | a single row adds its amount when it is approved and nothing otherwise |
| Reconcile.TotalCollectedAround | src/pages/AdminDashboard.tsx:116-118 | the total over a ledger split around one row is the total before it, that row's share and the total after it |
| Reconcile.TotalCollectedAppend | src/pages/AdminDashboard.tsx:116-118 | the total over two ledgers end to end is the sum of their totals |
| Reconcile.ApprovingOneRow | src/pages/AdminDashboard.tsx:116-118 | approving one unapproved row between two parts of the ledger adds its amount to the total |
| Reconcile.ApprovingAddsAmount | src/pages/AdminDashboard.tsx:82-84 | approving a row that is not yet approved, with a unique row key, raises the total by that row's amount |
| Reconcile.SubmittedNames | src/pages/AdminDashboard.tsx:120 | the set holds exactly the ledger's family names |
| Reconcile.UnpaidFamilies | src/pages/AdminDashboard.tsx:120-121 | a roster family is unpaid exactly when no ledger row has exactly its name; every occurrence of an unpaid family is kept and none of a paid one; the unpaid list keeps roster order |
| Reconcile.SubsequenceKeepsSorted | src/pages/AdminDashboard.tsx:121 | dropping families from a sorted roster leaves it sorted |
| Reconcile.UnpaidStaysSorted | src/pages/AdminDashboard.tsx:59-121 | the unpaid list of the sorted roster is sorted |
| Reconcile.UnpaidWithEmptyLedger | src/pages/AdminDashboard.tsx:120-121 | with an empty ledger every family is unpaid |
| Reconcile.SearchSubmissions | src/pages/AdminDashboard.tsx:123-125 | the search keeps exactly the rows whose lower-cased name contains the lower-cased query, each as many times as it occurs, in ledger order |
| Reconcile.SearchFamilies | src/pages/AdminDashboard.tsx:127-129 | the search keeps exactly the unpaid families whose lower-cased name contains the lower-cased query, each as many times as it occurs, in list order |
| Reconcile.EmptySearchKeepsSubmissions | src/pages/AdminDashboard.tsx:123-125 | an empty query keeps the whole ledger |
| Reconcile.EmptySearchKeepsFamilies | src/pages/AdminDashboard.tsx:127-129 | an empty query keeps every unpaid family |
| Reconcile.SearchIgnoresQueryCase | src/pages/AdminDashboard.tsx:123-125 | a query and its lower-cased form find the same rows |
| Reconcile.WithStatus | src/pages/AdminDashboard.tsx:82-84 | the ledger keeps its length; rows with the given key take the new status and keep every other field; all other rows are unchanged |
| Reconcile.WithStatusOfUniqueRow | src/pages/AdminDashboard.tsx:82-84 | with a unique key, the update replaces that one row and keeps the rows around it |
| Reconcile.ReviewNeverMakesPending | src/pages/AdminDashboard.tsx:77-84 | no review makes a row pending; a row pending afterwards was pending before and was not addressed |
| Reconcile.LastReviewWins | src/pages/AdminDashboard.tsx:82-84 | of two reviews of the same row, the second decides |
| Reconcile.ReviewsOfDifferentRowsCommute | src/pages/AdminDashboard.tsx:82-84 | reviews of different rows can be applied in either order |
| Reconcile.EnabledActionChangesLedger | src/pages/AdminDashboard.tsx:310-321 | an enabled review button, once its update succeeds, changes the ledger |
| Reconcile.ReportHeader | src/pages/AdminDashboard.tsx:102-104 | the header opens with the title and the count label, closes with the unit and the list heading, and has the count's decimal digits between them |
| Reconcile.ReportHeaderDeterminesCount | src/pages/AdminDashboard.tsx:103 | headers for different counts differ |
| Reconcile.ReportLine | src/pages/AdminDashboard.tsx:107 | a line opens with the family's number, a dot and its name, and ends with a line break |
| Reconcile.ReportLineShowsParty | src/pages/AdminDashboard.tsx:107 | after the number and the name, a line shows the adult count after `(Dewasa: ` and the child count after `, Kanak-kanak: `, then `)` and the line break |
| Reconcile.ReportLineDeterminesParty | src/pages/AdminDashboard.tsx:107 | the counts can be read back from a line: two lines with the same number and name are equal only when the adult and child counts are |
| Reconcile.NumberedLines | src/pages/AdminDashboard.tsx:106-108 | the lines are empty exactly when the list is, and otherwise end with a line break |
| Reconcile.NumberedLinesExtend | src/pages/AdminDashboard.tsx:106-108 | the lines for one more family end with that family's line |
| Reconcile.NumberedLinesPrefix | src/pages/AdminDashboard.tsx:106-108 | the lines for the first k families open the lines for the whole list |
| Reconcile.ReportLinePosition | src/pages/AdminDashboard.tsx:106-108 | family k of the list is on line k + 1, after the lines of the families before it |
| Reconcile.BuildReport | src/pages/AdminDashboard.tsx:95-108 | the "no unpaid family" alert exactly when there are no unpaid families; otherwise the header with the count, then one numbered line per family in list order |
| AdminPage.UpdateFailedAlert | src/pages/AdminDashboard.tsx:86 | the alert is the fixed prefix followed by the service's message, or by `undefined` when there is none |
| AdminPage.AdminDashboard.constructor | src/pages/AdminDashboard.tsx:12-16 | the dashboard starts with an empty ledger, roster and query |
| AdminPage.AdminDashboard.LoadData | src/pages/AdminDashboard.tsx:28-70 | a successful ledger reply replaces the ledger; a parsed roster replaces the roster with its decoded, sorted families; an unparsed one keeps the old roster; the alerts are the ledger connection alert and then the load alert, each exactly when its condition holds |
| AdminPage.AdminDashboard.SetSearchQuery | src/pages/AdminDashboard.tsx:191 | typing replaces the query and nothing else |
| AdminPage.AdminDashboard.ChangeStatus | src/pages/AdminDashboard.tsx:77-93 | only a successful reply changes the ledger, by the keyed status update; a refusal or a thrown call leaves it unchanged and returns its alert |
| AdminPage.AdminDashboard.SendWhatsApp | src/pages/AdminDashboard.tsx:95-108 | the report covers the unpaid families of the whole roster, not the search result, listed in name order; it is the "no unpaid family" alert exactly when none is unpaid |
| Walkthrough.OwesNinety | src/pages/Payment.tsx:166 | two adults and a child at 30 each owe 90 |
| Walkthrough.NinetyApproves | src/pages/Payment.tsx:191-197 | a receipt read as "90" approves a fee of 90 |
| Walkthrough.UnpaidUntilSubmitted | src/pages/AdminDashboard.tsx:120-121 | the family is unpaid before its submission and paid after it |
| Walkthrough.NinetyCollected | src/pages/AdminDashboard.tsx:116-118 | its approved row of 90 makes the total 90 |

## Left out

- The fetch wrappers of `src/lib/api.ts` and the roster sheet download are not modelled; their replies are parameters.
- The receipt-reading service call is left out. Only its reply text is modelled, as a parameter; a reply without text is passed as `""`, which behaves the same.
- `FileReader` is not modelled. The data URL it produces is a parameter, and its base64 encoding of the file is not modelled.
- CSV tokenising by the parser (quoting, `skipEmptyLines`) is left out; decoding starts from rows of cells.
- `localeCompare` is a parameter assumed to be a total preorder. Collation itself is not modelled.
- Roster.SortByName: does not state that families with equal names keep their order (stability), which JavaScript's sort provides.
- Receipt.VerifyReceipt: compares the matched decimal with the fee exactly instead of through `parseFloat`. So rounding of very long numerals, and fees that are not integers, are not modelled.
- Numbers.ParseIntOrZero: reads exact integers, so the loss of precision beyond 2^53 is not modelled.
- Text.ToLower: lower-cases ASCII letters only; other letters are left as they are.
- Records.NumberValue: ledger amounts are integers or NaN; fractional amounts are not modelled.
- A ledger row without a family name (`FamilyName?.` in the search) is not modelled; every row has a name.
- Interleaving of the asynchronous handlers is not modelled. Examples are a status check that returns after another family was chosen, or a second submit while one is in flight; each handler runs as one step.
- The loading and busy flags, tabs, navigation, the success screen and all rendering are UI only and are left out.
- The admin login page and the session flag that guards the dashboard are left out; they hold no payment logic.
- The WhatsApp link (`encodeURIComponent`, `window.open`) is left out; the model stops at the report text.

## Findings

| source | as written | input that shows it | evidently intended | confidence | as-written member | corrected member |
|---|---|---|---|---|---|---|
| src/pages/Payment.tsx:166 | `PRICING.ADULT` and `PRICING.CHILD` are read, but `src/lib/constants.ts:3-5` defines only `PRICING.FAMILY`. Each product is `undefined * n`, which is NaN, so the fee is NaN and `parseFloat(x) === totalAmount` is never true | any family, e.g. two adults and a child, with a receipt reading "90" | a defined per-adult and per-child price, so that a receipt stating the exact fee is approved | high for the reasoning; not executed | PaymentPage.ShippedPricesNeverApprove | PaymentPage.DefinedPricesApproveExactAmount |

The rest of the model (`PaymentPage.PaymentForm.Submit`) uses the corrected
fee: prices are given.
