/** The record shapes the pages exchange with the roster sheet and the ledger. */
module Records {
  import opened Wrappers

  /** Review status of a submission, as the ledger stores it. */
  datatype Status =
    | Pending    // "MENUNGGU PENGESAHAN"
    | Approved   // "LULUS"
    | Rejected   // "DITOLAK"

  /** The statuses an administrator can set: `'LULUS' | 'DITOLAK'`. */
  type ReviewStatus = s: Status | s != Pending witness Approved

  /** A roster entry. */
  datatype FamilyData = FamilyData(name: string, adults: int, children: int)

  /** A JavaScript number as far as the model needs it: an integer or NaN. */
  datatype NumberValue = Finite(value: int) | NaN

  /** A ledger row; `rowIndex` is the key status updates address. */
  datatype SubmissionData = SubmissionData(
    timestamp: string,
    familyName: string,
    adults: int,
    children: int,
    totalAmount: NumberValue,
    receiptUrl: string,
    status: Status,
    extractedAmount: Option<string>,
    rowIndex: int)
}
