/**
 * The admin dashboard as a state machine: it loads the ledger and the
 * roster, filters both by the search box, reviews ledger rows and builds the
 * reminder report. Network replies are the inputs of each step; alerts are
 * returned.
 */
module AdminPage {
  import opened Wrappers
  import opened Records
  import opened Roster
  import opened Reconcile

  /** What `getSubmissions` answered. */
  datatype LedgerReply = LedgerReply(success: bool, data: seq<SubmissionData>, error: Option<string>)

  /** How fetching and parsing the roster sheet ended. */
  datatype RosterLoad =
    | FetchFailed                      // `fetch(CSV_URL)` threw
    | ParseFailed                      // the parser failed; the page registers no handler for it
    | Parsed(rows: seq<seq<string>>)

  /** What `updateSubmissionStatus` did. */
  datatype UpdateReply = UpdateThrew | UpdateReplied(success: bool, message: Option<string>)

  const LedgerFetchFailedAlert: string :=
    "Gagal menyambung ke pangkalan data. Sila pastikan Google Apps Script telah di-deploy dengan akses \"Anyone\"."
  const LoadErrorAlert: string := "Ralat sistem semasa memuat turun data."
  const UpdateErrorAlert: string := "Ralat sistem semasa mengemaskini status."
  const UpdateFailedPrefix: string := "Gagal mengemaskini status: "

  /** `'Gagal mengemaskini status: ' + res.message`, where a missing message prints as `undefined`. */
  function UpdateFailedAlert(message: Option<string>): (r: string)
    ensures |r| >= |UpdateFailedPrefix| && r[..|UpdateFailedPrefix|] == UpdateFailedPrefix
    ensures r[|UpdateFailedPrefix|..] == if message.Some? then message.value else "undefined"
  {
    match message
    case Some(m) => UpdateFailedPrefix + m
    case None => UpdateFailedPrefix + "undefined"
  }

  class AdminDashboard {
    const leq: (string, string) -> bool
    var submissions: seq<SubmissionData>
    var allFamilies: seq<FamilyData>
    var searchQuery: string

    ghost predicate Valid()
      reads this
    {
      TotalPreorder(leq) && SortedByName(allFamilies, leq)
    }

    constructor (leq: (string, string) -> bool)
      requires TotalPreorder(leq)
      ensures Valid() && this.leq == leq
      ensures submissions == [] && allFamilies == [] && searchQuery == ""
    {
      this.leq := leq;
      submissions := [];
      allFamilies := [];
      searchQuery := "";
    }

    /**
     * `fetchData`: a successful ledger reply replaces the ledger, a failed one
     * raises the connection alert when it says `fetch_failed`; then the roster
     * sheet replaces the roster when it parses, and a failed fetch of it raises
     * the load alert. The alerts come back in the order they are raised.
     */
    method LoadData(ledger: LedgerReply, roster: RosterLoad) returns (alerts: seq<string>)
      requires Valid()
      modifies this
      ensures Valid() && searchQuery == old(searchQuery)
      ensures submissions == (if ledger.success then ledger.data else old(submissions))
      ensures roster.Parsed? ==>
                && (|roster.rows| > 0 ==> multiset(allFamilies) == multiset(KeptRows(roster.rows[1..])))
                && (|roster.rows| <= 1 ==> allFamilies == [])
      ensures !roster.Parsed? ==> allFamilies == old(allFamilies)
      ensures alerts ==
                (if !ledger.success && ledger.error == Some("fetch_failed") then [LedgerFetchFailedAlert] else [])
                + (if roster.FetchFailed? then [LoadErrorAlert] else [])
    {
      alerts := [];
      if ledger.success {
        submissions := ledger.data;
      } else if ledger.error == Some("fetch_failed") {
        alerts := alerts + [LedgerFetchFailedAlert];
      }
      match roster {
        case FetchFailed =>
          alerts := alerts + [LoadErrorAlert];
        case ParseFailed =>
        case Parsed(rows) =>
          allFamilies := DecodeRoster(rows, leq);
      }
    }

    method SetSearchQuery(query: string)
      requires Valid()
      modifies this
      ensures Valid()
      ensures searchQuery == query && submissions == old(submissions) && allFamilies == old(allFamilies)
    {
      searchQuery := query;
    }

    /**
     * `handleStatusChange`: only a successful reply changes the ledger, and
     * then exactly the rows with the given `rowIndex` take the new status;
     * a refusal or a failure leaves it as it was and returns the alert.
     */
    method ChangeStatus(rowIndex: int, target: ReviewStatus, reply: UpdateReply) returns (alert: Option<string>)
      requires Valid()
      modifies this
      ensures Valid() && allFamilies == old(allFamilies) && searchQuery == old(searchQuery)
      ensures reply.UpdateReplied? && reply.success ==>
                submissions == WithStatus(old(submissions), rowIndex, target) && alert.None?
      ensures reply.UpdateReplied? && !reply.success ==>
                submissions == old(submissions) && alert == Some(UpdateFailedAlert(reply.message))
      ensures reply.UpdateThrew? ==> submissions == old(submissions) && alert == Some(UpdateErrorAlert)
    {
      match reply {
        case UpdateThrew =>
          alert := Some(UpdateErrorAlert);
        case UpdateReplied(success, message) =>
          if success {
            submissions := WithStatus(submissions, rowIndex, target);
            alert := None;
          } else {
            alert := Some(UpdateFailedAlert(message));
          }
      }
    }

    /**
     * `handleSendWhatsApp`: the report over the unpaid families of the whole
     * roster (not the search result), which it lists in name order.
     */
    method SendWhatsApp() returns (outcome: ReportOutcome)
      requires Valid()
      ensures var unpaid := UnpaidFamilies(allFamilies, submissions);
              && (unpaid == [] <==> outcome == Alert(NothingToReportMessage))
              && (unpaid != [] ==> outcome == Report(ReportHeader(|unpaid|) + NumberedLines(unpaid)))
              && SortedByName(unpaid, leq)
    {
      outcome := BuildReport(UnpaidFamilies(allFamilies, submissions));
      UnpaidStaysSorted(allFamilies, submissions, leq);
    }
  }
}
